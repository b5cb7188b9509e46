/** ext2_restore takes nothing that is in use, and what it relinks. */
module RestoreProofs {
  import opened Options
  import opened Bytes
  import opened Records
  import opened DiskState
  import opened Directory
  import opened Invariant
  import opened Insertion
  import opened RemovalProofs
  import opened Restoration

  // ---------- when a restore takes effect ----------

  /** The records hidden behind the live ones of the chain from `o`. */
  ghost function HiddenIn(b: Block, o: nat): seq<nat>
    requires Chain(b, o, BLOCK_SIZE)
    decreases BLOCK_SIZE - o
  {
    if o == BLOCK_SIZE then [] else Slack(b, o) + HiddenIn(b, o + RecLen(b, o))
  }

  lemma {:induction false} AscendingIn(o: nat, hs: seq<nat>, end: nat, q: nat)
    requires Ascending(o, hs, end) && q in hs
    ensures o + HEADER <= q && q + MIN_SLOT <= end
    decreases |hs|
  {
    if q != hs[0] { AscendingIn(hs[0], hs[1..], end, q); }
  }

  ghost predicate Matches(s: State, k: nat, q: nat, name: Name) {
    k < |s.blocks| && q + HEADER <= BLOCK_SIZE && Candidate(s, k, q, name)
  }

  lemma {:induction false} ScanSlackEffect(s: State, k: nat, o: nat, hs: seq<nat>, end: nat, name: Name)
    requires k < |s.blocks| && |s.inodes| == |s.inodeBits| && Ascending(o, hs, end)
    ensures var r := ScanSlack(s, k, o, hs, end, name, false);
            && (r.done || r.stopped <==> exists q :: q in hs && Matches(s, k, q, name))
            && (!r.done ==> r.s == s)
    decreases |hs|
  {
    if hs != [] {
      assert hs == [hs[0]] + hs[1..];
      if !Candidate(s, k, hs[0], name) {
        ScanSlackEffect(s, k, hs[0], hs[1..], end, name);
      } else {
        assert Matches(s, k, hs[0], name);
        if FileType(s.blocks[k], hs[0]) != FT_DIR {
          ScanSlackDone(Revive(s, k, o, hs[0], end), k, hs[0], hs[1..], end, name);
        }
      }
    }
  }

  lemma {:induction false} ScanSlackDone(s: State, k: nat, o: nat, hs: seq<nat>, end: nat, name: Name)
    requires k < |s.blocks| && |s.inodes| == |s.inodeBits| && Ascending(o, hs, end)
    ensures ScanSlack(s, k, o, hs, end, name, true).done
    ensures (forall q :: q in hs ==> !Matches(s, k, q, name)) ==>
              ScanSlack(s, k, o, hs, end, name, true) == Scan(s, true, false)
    decreases |hs|
  {
    if hs != [] {
      assert hs == [hs[0]] + hs[1..];
      if !Candidate(s, k, hs[0], name) {
        ScanSlackDone(s, k, hs[0], hs[1..], end, name);
      } else {
        assert Matches(s, k, hs[0], name);
        if FileType(s.blocks[k], hs[0]) != FT_DIR {
          ScanSlackDone(Revive(s, k, o, hs[0], end), k, hs[0], hs[1..], end, name);
        }
      }
    }
  }

  lemma {:induction false} ScanChainEffect(s: State, k: nat, o: nat, name: Name)
    requires k < |s.blocks| && |s.inodes| == |s.inodeBits| && Chain(s.blocks[k], o, BLOCK_SIZE)
    ensures var r := ScanChain(s, k, o, name);
            && (r.done || r.stopped <==> exists q :: q in HiddenIn(s.blocks[k], o) && Matches(s, k, q, name))
            && (!r.done ==> r.s == s)
    decreases BLOCK_SIZE - o
  {
    if o < BLOCK_SIZE {
      var b := s.blocks[k];
      ScanSlackEffect(s, k, o, Slack(b, o), o + RecLen(b, o), name);
      ScanChainEffect(s, k, o + At(b, o).len, name);
    }
  }

  /** Some record hidden in the directory has the name, a free inode and free blocks. */
  ghost predicate HidesMatch(s: State, ps: seq<nat>, name: Name)
    requires BlocksOk(s.blocks, ps)
  {
    exists j, q :: 0 <= j < |ps| && q in HiddenIn(s.blocks[ps[j]], 0) && Matches(s, ps[j], q, name)
  }

  lemma {:induction false} ScanBlocksEffect(s: State, ps: seq<nat>, name: Name)
    requires |s.inodes| == |s.inodeBits| && BlocksOk(s.blocks, ps)
    ensures var r := ScanBlocks(s, ps, name);
            && (r.done || r.stopped <==> HidesMatch(s, ps, name))
            && (!r.done ==> r.s == s)
  {
    if ps != [] {
      ScanChainEffect(s, ps[0], 0, name);
      ScanBlocksEffect(s, ps[1..], name);
      if HidesMatch(s, ps[1..], name) {
        var j, q :| 0 <= j < |ps[1..]| && q in HiddenIn(s.blocks[ps[1..][j]], 0) && Matches(s, ps[1..][j], q, name);
        assert ps[j + 1] == ps[1..][j];
      }
      if HidesMatch(s, ps, name) {
        var j, q :| 0 <= j < |ps| && q in HiddenIn(s.blocks[ps[j]], 0) && Matches(s, ps[j], q, name);
        if j > 0 { assert ps[j] == ps[1..][j - 1]; }
      }
    }
  }

  // ---------- what a restore takes ----------

  ghost predicate ReservedMarked(s: State) {
    forall n: nat :: n < |s.inodeBits| && Reserved(n) ==> s.inodeBits[n]
  }

  /** Nothing that was in use changed hands: used inodes are as before, marked blocks stay marked. */
  ghost predicate Spares(s: State, s': State) {
    && |s'.inodes| == |s.inodes| && |s'.blockBits| == |s.blockBits|
    && (forall n: nat :: Used(s, n) ==> Used(s', n) && s'.inodes[n] == s.inodes[n])
    && (forall k :: 0 <= k < |s.blockBits| && s.blockBits[k] ==> s'.blockBits[k])
  }

  lemma TakenOwned(s: State, n: nat)
    requires AllocOk(s) && n in FreeInodes(s) && BlocksFree(s, n) && 0 !in Direct(s.inodes[n].ptr)
    ensures var s' := Taken(s, n);
            && (forall m :: Used(s', m) ==> MarksOwned(s', m))
            && (forall l, m :: Used(s', l) && Used(s', m) && l != m ==> Owned(s', l) !! Owned(s', m))
  {
    var s' := Taken(s, n);
    forall m | Used(s', m)
      ensures Owned(s', m) == Owned(s, m) && MarksOwned(s', m) && (m != n ==> Used(s, m) && Owned(s, m) !! Owned(s, n))
    {
      if m != n { assert MarksOwned(s, m); }
    }
  }

  lemma TakenAlloc(s: State, n: nat)
    requires AllocOk(s) && n in FreeInodes(s) && BlocksFree(s, n)
    ensures AllocOk(Taken(s, n)) && Spares(s, Taken(s, n))
  {
    var ps := Direct(s.inodes[n].ptr);
    assert PointersOk(s.inodes[n].ptr, |s.blocks|);
    TakeAllCounted(s, ps);
    TakeInodeCounted(TakeAll(s, ps), n);
    TakenOwned(s, n);
  }

  lemma ReviveAlloc(s: State, k: nat, o: nat, q: nat, end: nat, name: Name)
    requires AllocOk(s) && ReservedMarked(s) && k < |s.blocks|
    requires o + HEADER <= q <= BLOCK_SIZE - HEADER && q <= end < q + 0x1_0000 && Candidate(s, k, q, name)
    ensures var s' := Revive(s, k, o, q, end); AllocOk(s') && ReservedMarked(s') && Spares(s, s')
  {
    var n := Ino(s.blocks[k], q) - 1;
    var s1 := Relinked(s, k, o, q, end);
    RelinkedAlloc(s, s1, n);
    TakenAlloc(s1, n);
  }

  /** Until the bits are set, only an inode not in use and the bytes of a block have changed. */
  lemma RelinkedAlloc(s: State, s1: State, n: nat)
    requires AllocOk(s) && ReservedMarked(s) && n < |s.inodes| && !s.inodeBits[n] && BlocksFree(s, n)
    requires s1 == s.(inodes := s1.inodes, blocks := s1.blocks) && |s1.blocks| == |s.blocks|
    requires |s1.inodes| == |s.inodes| && s1.inodes[n].ptr == s.inodes[n].ptr
    requires forall m :: 0 <= m < |s.inodes| && m != n ==> s1.inodes[m] == s.inodes[m]
    ensures AllocOk(s1) && n in FreeInodes(s1) && BlocksFree(s1, n) && Spares(s, s1)
  {
    AllocFrame(s, s1);
  }

  lemma {:induction false} ScanSlackAlloc(s: State, k: nat, o: nat, hs: seq<nat>, end: nat, name: Name, done: bool)
    requires AllocOk(s) && ReservedMarked(s) && k < |s.blocks| && Ascending(o, hs, end)
    ensures var s' := ScanSlack(s, k, o, hs, end, name, done).s;
            AllocOk(s') && ReservedMarked(s') && Spares(s, s')
    decreases |hs|
  {
    if hs != [] {
      if !Candidate(s, k, hs[0], name) {
        ScanSlackAlloc(s, k, hs[0], hs[1..], end, name, done);
      } else if FileType(s.blocks[k], hs[0]) != FT_DIR {
        ReviveAlloc(s, k, o, hs[0], end, name);
        ScanSlackAlloc(Revive(s, k, o, hs[0], end), k, hs[0], hs[1..], end, name, true);
      }
    }
  }

  lemma {:induction false} ScanChainAlloc(s: State, k: nat, o: nat, name: Name)
    requires AllocOk(s) && ReservedMarked(s) && k < |s.blocks| && Chain(s.blocks[k], o, BLOCK_SIZE)
    ensures var s' := ScanChain(s, k, o, name).s; AllocOk(s') && ReservedMarked(s') && Spares(s, s')
    decreases BLOCK_SIZE - o
  {
    if o < BLOCK_SIZE {
      var b := s.blocks[k];
      ScanSlackAlloc(s, k, o, Slack(b, o), o + RecLen(b, o), name, false);
      ScanChainAlloc(s, k, o + At(b, o).len, name);
    }
  }

  lemma {:induction false} ScanBlocksAlloc(s: State, ps: seq<nat>, name: Name)
    requires AllocOk(s) && ReservedMarked(s) && BlocksOk(s.blocks, ps)
    ensures var s' := ScanBlocks(s, ps, name).s; AllocOk(s') && ReservedMarked(s') && Spares(s, s')
  {
    if ps != [] {
      ScanChainAlloc(s, ps[0], 0, name);
      ScanBlocksAlloc(s, ps[1..], name);
    }
  }

  /**
   * A restore, however many records it relinks: no inode in use changes, no block gets a second
   * owner, the counters stay right; and it takes effect exactly when a match is hidden somewhere.
   */
  lemma RestoreAlloc(s: State, d: nat, name: Name)
    requires AllocOk(s) && ReservedMarked(s) && d < |s.inodes| && IsDir(s.inodes[d].mode) && DirOk(s, d)
    requires DirSlacksOk(s, d)
    ensures var r := RestoreDirEntry(s, d, name);
            && AllocOk(r.s) && Spares(s, r.s)
            && (r.done || r.stopped <==> HidesMatch(s, Direct(s.inodes[d].ptr), name))
            && (!r.done ==> r.s == s)
  {
    ScanBlocksAlloc(s, Direct(s.inodes[d].ptr), name);
    ScanBlocksEffect(s, Direct(s.inodes[d].ptr), name);
  }

  // ---------- where a restore takes effect ----------

  ghost predicate HasMatch(s: State, k: nat, hs: seq<nat>, name: Name) {
    exists q :: q in hs && Matches(s, k, q, name)
  }

  /** The first live record of the chain with a match in its slack. */
  ghost function SiteIn(s: State, k: nat, o: nat, name: Name): Option<nat>
    requires k < |s.blocks| && Chain(s.blocks[k], o, BLOCK_SIZE)
    decreases BLOCK_SIZE - o
  {
    if o == BLOCK_SIZE then None
    else if HasMatch(s, k, Slack(s.blocks[k], o), name) then Some(o)
    else SiteIn(s, k, o + RecLen(s.blocks[k], o), name)
  }

  /** A live record with a match in its slack. */
  ghost predicate MatchSite(s: State, k: nat, p: nat, name: Name) {
    && k < |s.blocks| && RecOk(s.blocks[k], p) && Chain(s.blocks[k], p + RecLen(s.blocks[k], p), BLOCK_SIZE)
    && HasMatch(s, k, Slack(s.blocks[k], p), name)
  }

  /** The pass over the slack of the live record at `p`. */
  ghost function ScanAt(s: State, k: nat, p: nat, name: Name): Scan
    requires k < |s.blocks| && |s.inodes| == |s.inodeBits| && RecOk(s.blocks[k], p)
  {
    ScanSlack(s, k, p, Slack(s.blocks[k], p), p + RecLen(s.blocks[k], p), name, false)
  }

  lemma {:induction false} SiteInIs(s: State, k: nat, o: nat, name: Name)
    requires k < |s.blocks| && |s.inodes| == |s.inodeBits| && Chain(s.blocks[k], o, BLOCK_SIZE)
    ensures SiteIn(s, k, o, name) == None ==> ScanChain(s, k, o, name) == Scan(s, false, false)
    ensures SiteIn(s, k, o, name).Some? ==>
              var p := SiteIn(s, k, o, name).value;
              && Chain(s.blocks[k], o, p) && MatchSite(s, k, p, name)
              && ScanChain(s, k, o, name) == ScanAt(s, k, p, name)
              && (ScanChain(s, k, o, name).done || ScanChain(s, k, o, name).stopped)
    decreases BLOCK_SIZE - o
  {
    if o < BLOCK_SIZE {
      var b := s.blocks[k];
      if HasMatch(s, k, Slack(b, o), name) {
        ScanSlackEffect(s, k, o, Slack(b, o), o + RecLen(b, o), name);
      } else {
        ScanSlackQuiet(s, k, o, Slack(b, o), o + RecLen(b, o), name);
        SiteInIs(s, k, o + At(b, o).len, name);
      }
    }
  }

  lemma {:induction false} ScanSlackQuiet(s: State, k: nat, o: nat, hs: seq<nat>, end: nat, name: Name)
    requires k < |s.blocks| && |s.inodes| == |s.inodeBits| && Ascending(o, hs, end)
    ensures !HasMatch(s, k, hs, name) ==> ScanSlack(s, k, o, hs, end, name, false) == Scan(s, false, false)
    decreases |hs|
  {
    if hs != [] && !HasMatch(s, k, hs, name) {
      assert hs[0] in hs && !Matches(s, k, hs[0], name);
      ScanSlackQuiet(s, k, hs[0], hs[1..], end, name);
    }
  }

  /** The block and the live record at which a restore of `name` takes effect. */
  ghost function SiteOf(s: State, ps: seq<nat>, name: Name): Option<(nat, nat)>
    requires BlocksOk(s.blocks, ps)
  {
    if ps == [] then None
    else match SiteIn(s, ps[0], 0, name)
      case Some(o) => Some((ps[0], o))
      case None => SiteOf(s, ps[1..], name)
  }

  lemma {:induction false} SiteOfIs(s: State, ps: seq<nat>, name: Name) returns (j: nat)
    requires |s.inodes| == |s.inodeBits| && BlocksOk(s.blocks, ps)
    ensures SiteOf(s, ps, name) == None ==> ScanBlocks(s, ps, name) == Scan(s, false, false)
    ensures SiteOf(s, ps, name).Some? ==>
              var (k, o) := SiteOf(s, ps, name).value;
              && j < |ps| && ps[j] == k && Chain(s.blocks[k], 0, o) && MatchSite(s, k, o, name)
              && ScanBlocks(s, ps, name) == ScanAt(s, k, o, name)
  {
    j := 0;
    if ps != [] {
      SiteInIs(s, ps[0], 0, name);
      if SiteIn(s, ps[0], 0, name) == None {
        j := SiteOfIs(s, ps[1..], name);
        j := j + 1;
      }
    }
  }

  // ---------- a single match ----------

  /** `hs[i]` is the only match in the slack. */
  ghost predicate OnlyMatch(s: State, k: nat, hs: seq<nat>, i: nat, name: Name) {
    && i < |hs| && Matches(s, k, hs[i], name)
    && forall j :: 0 <= j < |hs| && j != i ==> !Matches(s, k, hs[j], name)
  }

  lemma RelinkFrame(b: Block, o: nat, q: nat, end: nat)
    requires o + HEADER <= q && q + MIN_SLOT <= end <= BLOCK_SIZE
    ensures var b' := Relink(b, o, q, end);
            && Agree(b, b', 0, o + 4) && Agree(b, b', o + 6, q + 4) && Agree(b, b', q + 6, BLOCK_SIZE)
            && RecLen(b', o) == q - o && RecLen(b', q) == end - q
  {
    Put16Is(b, o + 4, q - o);
    Put16Is(Put16(b, o + 4, q - o), q + 4, end - q);
  }

  /** A restore makes no further record a match. */
  lemma NoNewMatch(s: State, k: nat, o: nat, q: nat, end: nat, r: nat, name: Name)
    requires k < |s.blocks| && o + HEADER <= q && q + MIN_SLOT <= end <= BLOCK_SIZE
    requires Shaped(s) && Candidate(s, k, q, name) && q + HEADER <= r
    ensures Matches(Revive(s, k, o, q, end), k, r, name) ==> Matches(s, k, r, name)
  {
    var b, b' := s.blocks[k], Relink(s.blocks[k], o, q, end);
    RelinkFrame(b, o, q, end);
    if r + HEADER <= BLOCK_SIZE {
      assert NameOf(b', r) == NameOf(b, r);
      BlocksFreeAfter(s, Revive(s, k, o, q, end));
    }
  }

  lemma BlocksFreeAfter(s: State, s': State)
    requires |s'.inodes| == |s.inodes| && |s'.blockBits| == |s.blockBits|
    requires forall m :: 0 <= m < |s.inodes| ==> s'.inodes[m].ptr == s.inodes[m].ptr
    requires forall k :: 0 <= k < |s.blockBits| && s.blockBits[k] ==> s'.blockBits[k]
    ensures forall m :: 0 <= m < |s.inodes| && BlocksFree(s', m) ==> BlocksFree(s, m)
  {
  }

  /** With a single match the pass relinks it, to whatever comes before it in the slack. */
  lemma {:induction false} ScanSingle(s: State, k: nat, o: nat, hs: seq<nat>, end: nat, i: nat, name: Name)
    requires Shaped(s) && k < |s.blocks| && Ascending(o, hs, end) && OnlyMatch(s, k, hs, i, name)
    ensures var before := if i == 0 then o else hs[i - 1];
            && before + HEADER <= hs[i] && hs[i] + MIN_SLOT <= end
            && ScanSlack(s, k, o, hs, end, name, false)
               == if FileType(s.blocks[k], hs[i]) == FT_DIR then Scan(s, false, true)
                  else Scan(Revive(s, k, before, hs[i], end), true, false)
    decreases i
  {
    if i == 0 {
      forall q | q in hs[1..] && FileType(s.blocks[k], hs[0]) != FT_DIR
        ensures !Matches(Revive(s, k, o, hs[0], end), k, q, name)
      {
        var j :| 0 <= j < |hs[1..]| && hs[1..][j] == q;
        assert q == hs[j + 1];
        AscendingIn(hs[0], hs[1..], end, q);
        NoNewMatch(s, k, o, hs[0], end, q, name);
      }
      if FileType(s.blocks[k], hs[0]) != FT_DIR {
        ScanSlackDone(Revive(s, k, o, hs[0], end), k, hs[0], hs[1..], end, name);
      }
    } else {
      assert !Matches(s, k, hs[0], name);
      forall j | 0 <= j < |hs[1..]| && j != i - 1 ensures !Matches(s, k, hs[1..][j], name) {
        assert hs[1..][j] == hs[j + 1];
      }
      ScanSingle(s, k, hs[0], hs[1..], end, i - 1, name);
    }
  }
}

/**
 * Any restore, with any number of matches at any depth: the disk stays sound, but for links that no
 * live record holds.
 */
module RestoreSafe {
  import opened Bytes
  import opened Records
  import opened DiskState
  import opened Directory
  import opened Invariant
  import opened Restoration
  import opened RestoreTree
  import opened RestoreWalk

  /** One more link that no record holds, and the live records as they were. */
  lemma LooseTree(t: State, s': State, k: nat, n: nat, b': Block)
    requires TreeOk(t, false) && Shaped(s') && Relinks(t, s', k, n, b') && t.inodes[n].links == 0
    requires Used(t, n) && !IsDir(t.inodes[n].mode) && !Reserved(n)
    requires BlockOk(b') && (BlockOk(t.blocks[k]) ==> Live(b') == Live(t.blocks[k]))
    ensures TreeOk(s', false)
  {
    DeeperSame(t, s', k, n, b', false);
    forall f: nat | UsedDir(s', f) ensures DirSound(s', f) {
      assert UsedDir(t, f) && DirSound(t, f);
      LiveOfSame(t.blocks, s'.blocks, Direct(t.inodes[f].ptr), k);
      assert DirEntries(s', f) == DirEntries(t, f);
    }
    forall m | 0 <= m < |s'.inodes| ensures InodeSound(s', m, false) {
      assert InodeSound(t, m, false);
      TotalShift(t, s', |t.inodes|, m + 1, 0, 0);
    }
  }

  /** What a pass that has come to record `c` of a block of directory `d` relies on. */
  ghost predicate AtRecord(s: State, d: nat, j: nat, k: nat, r: nat, c: nat, end: nat) {
    && Inv(s, false) && UsedDir(s, d) && j < NumDirect(s.inodes[d].ptr) && s.inodes[d].ptr[j] == k < |s.blocks|
    && c + HEADER <= BLOCK_SIZE && end <= BLOCK_SIZE && Within(s.blocks[k], r, c, end)
  }

  /** The record at `q`, the first one hidden behind `c`, is a match and no directory's. */
  ghost predicate TakesNext(s: State, k: nat, c: nat, q: nat, end: nat, name: Name)
    requires k < |s.blocks| && c + HEADER <= BLOCK_SIZE
  {
    && q == c + MinLen(NameLen(s.blocks[k], c)) && q + MIN_SLOT <= end <= BLOCK_SIZE && Ino(s.blocks[k], q) != 0
    && q + MinLen(NameLen(s.blocks[k], q)) <= end && Candidate(s, k, q, name)
  }

  lemma SlackOfLive(b: Block, r: nat, q: nat, end: nat)
    requires RecOk(b, r) && r + RecLen(b, r) == end && q == r + MinLen(NameLen(b, r)) && q + MIN_SLOT <= end
    requires Ino(b, q) != 0 && q + MinLen(NameLen(b, q)) <= end
    ensures Slack(b, r) != [] && Slack(b, r)[0] == q
  {
  }

  /** Behind the live record: the match is live again and counted. */
  lemma ReviveLive(s: State, d: nat, j: nat, k: nat, r: nat, q: nat, end: nat, name: Name, exact: bool := false)
    requires AtRecord(s, d, j, k, r, r, end) && TakesNext(s, k, r, q, end, name) && Inv(s, exact)
    ensures Inv(Revive(s, k, r, q, end), exact)
  {
    SlackOfLive(s.blocks[k], r, q, end);
    var t, n := ReviveState(s, k, r, q, end, name, exact);
    RelinkedTree(t, Revive(s, k, r, q, end), d, j, r, n, exact);
  }

  /** Behind a hidden one: the live records stay. */
  lemma ReviveHidden(s: State, d: nat, j: nat, k: nat, r: nat, c: nat, q: nat, end: nat, name: Name)
    requires AtRecord(s, d, j, k, r, c, end) && TakesNext(s, k, c, q, end, name) && c != r
    ensures Inv(Revive(s, k, c, q, end), false)
  {
    var b' := Relink(s.blocks[k], c, q, end);
    WithinOk(s.blocks[k], r, c, end);
    RelinkHidden(s.blocks[k], r, c, q);
    assert BlockOk(b') && Live(b') == Live(s.blocks[k]);
    var t, n := ReviveState(s, k, c, q, end, name, false);
    LooseTree(t, Revive(s, k, c, q, end), k, n, b');
  }

  lemma ReviveKeepsDir(s: State, k: nat, c: nat, q: nat, end: nat, d: nat)
    requires k < |s.blocks| && c + HEADER <= q && q + MIN_SLOT <= end <= BLOCK_SIZE
    requires 0 < Ino(s.blocks[k], q) <= |s.inodes| == |s.inodeBits| && UsedDir(s, d)
    ensures var s' := Revive(s, k, c, q, end);
            UsedDir(s', d) && s'.inodes[d].ptr == s.inodes[d].ptr && |s'.blocks| == |s.blocks|
  {
  }

  /** And the records left to look at are `hs`. */
  ghost predicate AtPass(s: State, d: nat, j: nat, k: nat, r: nat, c: nat, hs: seq<nat>, end: nat) {
    AtRecord(s, d, j, k, r, c, end) && hs == Hidden(s.blocks[k], c + MinLen(NameLen(s.blocks[k], c)), end)
  }

  lemma PassHead(s: State, d: nat, j: nat, k: nat, r: nat, c: nat, hs: seq<nat>, end: nat, name: Name)
    requires AtPass(s, d, j, k, r, c, hs, end)
    ensures Ascending(c, hs, end)
    ensures hs != [] ==>
              && AtPass(s, d, j, k, r, hs[0], hs[1..], end) && hs[0] + MIN_SLOT <= end
              && (Candidate(s, k, hs[0], name) ==> TakesNext(s, k, c, hs[0], end, name))
  {
    var q := c + MinLen(NameLen(s.blocks[k], c));
    HiddenAscending(s.blocks[k], c, q, end);
    if hs != [] { HiddenHead(s.blocks[k], q, end); }
  }

  lemma ReviveOne(s: State, d: nat, j: nat, k: nat, r: nat, c: nat, q: nat, end: nat, name: Name)
    returns (r': nat, s1: State)
    requires AtRecord(s, d, j, k, r, c, end) && TakesNext(s, k, c, q, end, name)
    ensures r' == if c == r then q else r
    ensures s1 == Revive(s, k, c, q, end)
    ensures var after := q + MinLen(NameLen(s.blocks[k], q));
            && AtRecord(s1, d, j, k, r', q, end) && NameLen(s1.blocks[k], q) == NameLen(s.blocks[k], q)
            && Hidden(s1.blocks[k], after, end) == Hidden(s.blocks[k], after, end)
  {
    if c == r { ReviveLive(s, d, j, k, r, q, end, name); } else { ReviveHidden(s, d, j, k, r, c, q, end, name); }
    r' := SlackStep(s, k, c, q, end, r, 0);
    s1 := Revive(s, k, c, q, end);
    ReviveKeepsDir(s, k, c, q, end, d);
  }

  /** After a revival the pass goes on from the record revived. */
  lemma ReviveStep(s: State, d: nat, j: nat, k: nat, r: nat, c: nat, hs: seq<nat>, end: nat, name: Name)
    returns (r': nat, s1: State)
    requires AtPass(s, d, j, k, r, c, hs, end) && hs != []
    requires hs[0] + HEADER <= BLOCK_SIZE && TakesNext(s, k, c, hs[0], end, name)
    ensures r' == if c == r then hs[0] else r
    ensures s1 == Revive(s, k, c, hs[0], end) && AtPass(s1, d, j, k, r', hs[0], hs[1..], end)
  {
    HiddenHead(s.blocks[k], hs[0], end);
    r', s1 := ReviveOne(s, d, j, k, r, c, hs[0], end, name);
  }

  lemma {:induction false} ScanSlackSafe(s: State, d: nat, j: nat, k: nat, r: nat, c: nat, hs: seq<nat>, end: nat,
                                         name: Name, done: bool) returns (s': State)
    requires AtPass(s, d, j, k, r, c, hs, end)
    ensures Inv(s', false)
    ensures Ascending(c, hs, end) && s' == ScanSlack(s, k, c, hs, end, name, done).s
    decreases |hs|
  {
    PassHead(s, d, j, k, r, c, hs, end, name);
    s' := s;
    if hs != [] {
      if !Candidate(s, k, hs[0], name) {
        s' := ScanSlackSafe(s, d, j, k, r, hs[0], hs[1..], end, name, done);
      } else if FileType(s.blocks[k], hs[0]) != FT_DIR {
        var r', s1 := ReviveStep(s, d, j, k, r, c, hs, end, name);
        s' := ScanSlackSafe(s1, d, j, k, r', hs[0], hs[1..], end, name, true);
      }
    }
  }

  lemma {:induction false} ScanChainSafe(s: State, d: nat, j: nat, k: nat, o: nat, name: Name) returns (s': State)
    requires Inv(s, false) && UsedDir(s, d) && j < NumDirect(s.inodes[d].ptr) && s.inodes[d].ptr[j] == k < |s.blocks|
    requires Chain(s.blocks[k], 0, o) && Chain(s.blocks[k], o, BLOCK_SIZE)
    ensures Inv(s', false)
    ensures s' == ScanChain(s, k, o, name).s
    decreases BLOCK_SIZE - o
  {
    s' := s;
    if o < BLOCK_SIZE {
      var b := s.blocks[k];
      ChainSteps(b, o);
      s' := ScanSlackSafe(s, d, j, k, o, o, Slack(b, o), o + RecLen(b, o), name, false);
      var r := ScanSlack(s, k, o, Slack(b, o), o + RecLen(b, o), name, false);
      if !r.done && !r.stopped {
        s' := ScanChainSafe(s, d, j, k, o + RecLen(b, o), name);
      }
    }
  }

  lemma {:induction false} ScanBlocksSafe(s: State, d: nat, j: nat, ps: seq<nat>, name: Name) returns (s': State)
    requires Inv(s, false) && UsedDir(s, d) && DirOk(s, d) && j <= NumDirect(s.inodes[d].ptr)
    requires ps == Direct(s.inodes[d].ptr)[j..] && BlocksOk(s.blocks, ps)
    ensures Inv(s', false)
    ensures s' == ScanBlocks(s, ps, name).s
    decreases |ps|
  {
    s' := s;
    if ps != [] {
      assert Direct(s.inodes[d].ptr)[j] == ps[0] == s.inodes[d].ptr[j];
      assert Chain(s.blocks[ps[0]], 0, 0);
      s' := ScanChainSafe(s, d, j, ps[0], 0, name);
      var r := ScanChain(s, ps[0], 0, name);
      if !r.done && !r.stopped {
        s' := ScanBlocksSafe(s, d, j + 1, ps[1..], name);
      }
    }
  }

  /** However many matches a restore relinks, and wherever they lie, the disk stays sound in that sense. */
  lemma RestoreKeepsSafe(s: State, d: nat, name: Name)
    requires Inv(s, false) && UsedDir(s, d) && DirOk(s, d) && DirSlacksOk(s, d)
    ensures Inv(RestoreDirEntry(s, d, name).s, false)
  {
    var ps := Direct(s.inodes[d].ptr);
    assert ps[0..] == ps;
    var s' := ScanBlocksSafe(s, d, 0, ps, name);
  }
}

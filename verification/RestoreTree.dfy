/** What relinking one record does to the live records and to link counts. */
module RestoreTree {
  import opened Options
  import opened Bytes
  import opened Records
  import opened DiskState
  import opened Directory
  import opened Invariant
  import opened Insertion
  import opened Restoration
  import opened RestoreProofs

  lemma SlackHead(b: Block, o: nat)
    requires RecOk(b, o) && Slack(b, o) != []
    ensures var q := Slack(b, o)[0];
            && q == o + MinLen(NameLen(b, o)) && q + MIN_SLOT <= o + RecLen(b, o)
            && q + MinLen(NameLen(b, q)) <= o + RecLen(b, o) && Ino(b, q) != 0
  {
  }

  /** Relinking the record directly behind the live one at `o` makes it live. */
  lemma RelinkSplits(b: Block, o: nat)
    requires RecOk(b, o) && Slack(b, o) != []
    ensures var q, end := Slack(b, o)[0], o + RecLen(b, o); var b' := Relink(b, o, q, end);
            && SplitAt(b, b', o, q - o) && At(b', q) == At(b, q).(len := end - q)
  {
    SlackHead(b, o);
    var q, end := Slack(b, o)[0], o + RecLen(b, o);
    var b' := Relink(b, o, q, end);
    RelinkFrame(b, o, q, end);
    assert NameOf(b', q) == NameOf(b, q);
    NameFits(b', q);
  }

  lemma SplitsInto(b: Block, b': Block, o: nat, q: nat, len: nat)
    returns (before: seq<Entry>, x: Entry, e: Entry, after: seq<Entry>)
    requires RecOk(b, o) && q == o + MinLen(NameLen(b, o)) && SplitAt(b, b', o, q - o)
    requires Chain(b, 0, o) && Chain(b, o + RecLen(b, o), BLOCK_SIZE) && q + HEADER <= BLOCK_SIZE
    requires At(b', q) == At(b, q).(len := len)
    ensures x.off == o && e.ino == Ino(b, q) && e.name == NameOf(b, q)
    ensures BlockOk(b) && BlockOk(b') && SplitInto(Live(b), Live(b'), before, x, e, after)
  {
    e := At(b', q);
    before, x, after := SplitRecord(b, b', o, e);
  }

  lemma RelinkLive(b: Block, o: nat) returns (before: seq<Entry>, x: Entry, e: Entry, after: seq<Entry>)
    requires RecOk(b, o) && Slack(b, o) != [] && Chain(b, 0, o) && Chain(b, o + RecLen(b, o), BLOCK_SIZE)
    ensures var q, end := Slack(b, o)[0], o + RecLen(b, o); var b' := Relink(b, o, q, end);
            && q + HEADER <= BLOCK_SIZE && x.off == o && e.ino == Ino(b, q) && e.name == NameOf(b, q)
            && BlockOk(b) && BlockOk(b') && SplitInto(Live(b), Live(b'), before, x, e, after)
  {
    var q, end := Slack(b, o)[0], o + RecLen(b, o);
    SlackHead(b, o);
    RelinkSplits(b, o);
    before, x, e, after := SplitsInto(b, Relink(b, o, q, end), o, q, end - q);
  }

  /** Relinking a record behind another hidden one leaves the live chain as it is. */
  lemma RelinkHidden(b: Block, o: nat, p: nat, q: nat)
    requires BlockOk(b) && RecOk(b, o) && Chain(b, 0, o) && Chain(b, o + RecLen(b, o), BLOCK_SIZE)
    requires o + MinLen(NameLen(b, o)) <= p && p + HEADER <= q && q + MIN_SLOT <= o + RecLen(b, o)
    ensures var b' := Relink(b, p, q, o + RecLen(b, o));
            BlockOk(b') && Live(b') == Live(b)
  {
    var end := o + RecLen(b, o);
    var b' := Relink(b, p, q, end);
    RelinkFrame(b, p, q, end);
    ChainFrame(b, b', 0, o);
    ChainFrame(b, b', end, BLOCK_SIZE);
    AtFrame(b, b', o);
    LiveKept(b, b', o, end);
  }

  lemma LiveKept(b: Block, b': Block, o: nat, end: nat)
    requires RecOk(b, o) && RecOk(b', o) && At(b', o) == At(b, o) && end == o + RecLen(b, o)
    requires Chain(b, 0, o) && Chain(b', 0, o) && Entries(b', 0, o) == Entries(b, 0, o)
    requires Chain(b, end, BLOCK_SIZE) && Chain(b', end, BLOCK_SIZE)
    requires Entries(b', end, BLOCK_SIZE) == Entries(b, end, BLOCK_SIZE)
    ensures BlockOk(b) && BlockOk(b') && Live(b') == Live(b)
  {
    BlockAt(b, o, At(b, o));
    BlockAt(b', o, At(b, o));
  }

  // ---------- link counts ----------

  /** The bits of a free inode and of its free blocks set, nothing linked to it yet. */
  lemma TakenTree(s: State, n: nat, exact: bool := true)
    requires Inv(s, exact) && n < |s.inodes| && !Used(s, n)
    ensures TreeOk(Taken(s, n), exact)
  {
    assert InodeSound(s, n, exact);
    TreeNewInode(s, Taken(s, n), n, exact);
  }

  /** The result of a restore, seen from the state with just the bits taken. */
  ghost predicate Relinks(s: State, s': State, k: nat, n: nat, b': Block) {
    && k < |s.blocks| && n < |s.inodes| == |s'.inodes| && s'.blocks == s.blocks[k := b']
    && s'.inodeBits == s.inodeBits && |s'.blockBits| == |s.blockBits|
    && (forall m :: 0 <= m < |s.inodes| ==>
          s'.inodes[m] == if m == n then s.inodes[n].(dtime := 0, links := U16(s.inodes[n].links + 1)) else s.inodes[m])
  }

  lemma ReviveRelinks(s: State, k: nat, o: nat, q: nat, end: nat)
    requires Shaped(s) && k < |s.blocks| && o + HEADER <= q && q + HEADER <= end <= BLOCK_SIZE
    requires 0 < Ino(s.blocks[k], q) <= |s.inodes|
    ensures var n := Ino(s.blocks[k], q) - 1;
            Relinks(Taken(s, n), Revive(s, k, o, q, end), k, n, Relink(s.blocks[k], o, q, end))
  {
  }

  /** The other directories do not see a change in a block of directory `d`. */
  lemma RelinkOthers(t: State, s': State, d: nat, j: nat, n: nat, b': Block, exact: bool := true)
    requires AllocOk(t) && TreeOk(t, exact) && UsedDir(t, d) && j < NumDirect(t.inodes[d].ptr)
    requires Relinks(t, s', t.inodes[d].ptr[j], n, b')
    ensures forall f :: UsedDir(t, f) && f != d ==> SameDir(t, s', f)
  {
    assert Direct(t.inodes[d].ptr)[j] == t.inodes[d].ptr[j];
    assert t.inodes[d].ptr[j] in Owned(t, d);
    forall f | UsedDir(t, f) && f != d ensures Owned(t, f) !! Owned(t, d) {}
  }

  /** The record relinked is the one directly behind the live record at `o` of block `j` of `d`. */
  ghost predicate RelinksFirst(t: State, s': State, d: nat, j: nat, o: nat, n: nat) {
    && d < |t.inodes| && j < NumDirect(t.inodes[d].ptr)
    && var k := t.inodes[d].ptr[j];
       && k < |t.blocks| && RecOk(t.blocks[k], o) && Slack(t.blocks[k], o) != []
       && Chain(t.blocks[k], 0, o) && Chain(t.blocks[k], o + RecLen(t.blocks[k], o), BLOCK_SIZE)
       && var q, end := Slack(t.blocks[k], o)[0], o + RecLen(t.blocks[k], o);
          q + HEADER <= end && Ino(t.blocks[k], q) == n + 1
          && Relinks(t, s', k, n, Relink(t.blocks[k], o, q, end))
  }

  lemma RelinkShape(t: State, s': State, d: nat, j: nat, o: nat, n: nat)
    returns (a: seq<Entry>, x: Entry, e: Entry, b: seq<Entry>)
    requires DirOk(t, d) && PointersOk(t.inodes[d].ptr, |t.blocks|) && RelinksFirst(t, s', d, j, o, n)
    ensures DirOk(s', d) && SplitInto(DirEntries(t, d), DirEntries(s', d), a, x, e, b) && e.ino == n + 1
    ensures var q := Slack(t.blocks[t.inodes[d].ptr[j]], o)[0];
            q + HEADER <= BLOCK_SIZE && e.name == NameOf(t.blocks[t.inodes[d].ptr[j]], q)
  {
    var k := t.inodes[d].ptr[j];
    a, x, e, b := RelinkLive(t.blocks[k], o);
    a, b := DirShape(t, s', d, j, a, x, e, b);
  }

  lemma RelinkedDir(t: State, s': State, d: nat, j: nat, o: nat, n: nat)
    requires DirOk(t, d) && PointersOk(t.inodes[d].ptr, |t.blocks|) && RelinksFirst(t, s', d, j, o, n)
    ensures DirOk(s', d) && CountsMove(DirEntries(t, d), DirEntries(s', d), n + 1, 1)
  {
    var a, x, e, b := RelinkShape(t, s', d, j, o, n);
    SplitAdds(a, x, MinLen(|x.name|), e, b);
  }

  lemma RelinksMove(t: State, s': State, d: nat, k: nat, n: nat, b': Block)
    requires Relinks(t, s', k, n, b') && t.inodes[n].links == 0 && d < |t.inodes|
    ensures LinksMove(t, s', n, 1)
    ensures s'.inodes[d].sectors == t.inodes[d].sectors && s'.inodes[d].ptr == t.inodes[d].ptr
  {
  }

  /** A match directly behind its live predecessor: the record is live again and counted. */
  lemma RelinkedTree(t: State, s': State, d: nat, j: nat, o: nat, n: nat, exact: bool := true)
    requires AllocOk(t) && TreeOk(t, exact) && UsedDir(t, d) && RelinksFirst(t, s', d, j, o, n) && Shaped(s')
    requires Used(t, n) && !IsDir(t.inodes[n].mode) && t.inodes[n].links == 0 && !Reserved(n)
    ensures TreeOk(s', exact)
  {
    assert DirSound(t, d);
    RelinkedDir(t, s', d, j, o, n);
    var k := t.inodes[d].ptr[j];
    var b' := Relink(t.blocks[k], o, Slack(t.blocks[k], o)[0], o + RecLen(t.blocks[k], o));
    RelinksMove(t, s', d, k, n, b');
    RelinkOthers(t, s', d, j, n, b', exact);
    TreeMove(t, s', d, n, 1, exact);
  }

  lemma RelinkedLost(t: State, s': State, n: nat)
    requires TreeOk(t) && n < |t.inodes| == |s'.inodes| && Used(t, n) && t.inodes[n].links == 0
    requires s'.inodeBits == t.inodeBits && s'.inodes[n].links == 1
    requires forall d: nat, ino: nat :: DirCount(s', d, ino) == DirCount(t, d, ino)
    ensures !TreeOk(s')
  {
    assert InodeSound(t, n);
    TotalShift(t, s', |t.inodes|, n + 1, 0, 0);
    assert !InodeSound(s', n);
  }

  lemma ReservedAreMarked(s: State, exact: bool := true)
    requires TreeOk(s, exact)
    ensures ReservedMarked(s)
  {
    forall n: nat | n < |s.inodeBits| && Reserved(n) ensures s.inodeBits[n] { assert InodeSound(s, n, exact); }
  }

  /** The restore of `name` takes effect at the live record `o` of block `k`, on hidden record `i` alone. */
  ghost predicate SingleSite(s: State, d: nat, name: Name, k: nat, o: nat, i: nat) {
    && UsedDir(s, d) && DirOk(s, d) && DirSlacksOk(s, d) && SiteOf(s, Direct(s.inodes[d].ptr), name) == Some((k, o))
    && k < |s.blocks| && RecOk(s.blocks[k], o) && OnlyMatch(s, k, Slack(s.blocks[k], o), i, name)
    && FileType(s.blocks[k], Slack(s.blocks[k], o)[i]) != FT_DIR
  }

  lemma SingleScan(s: State, d: nat, name: Name, k: nat, o: nat, i: nat) returns (j: nat)
    requires Inv(s) && SingleSite(s, d, name, k, o, i)
    ensures j < NumDirect(s.inodes[d].ptr) && s.inodes[d].ptr[j] == k && Chain(s.blocks[k], 0, o)
    ensures Chain(s.blocks[k], o + RecLen(s.blocks[k], o), BLOCK_SIZE)
    ensures var b := s.blocks[k]; var hs, end := Slack(b, o), o + RecLen(b, o);
            var before := if i == 0 then o else hs[i - 1];
            && before + HEADER <= hs[i] && hs[i] + MIN_SLOT <= end && Candidate(s, k, hs[i], name)
            && RestoreDirEntry(s, d, name) == Scan(Revive(s, k, before, hs[i], end), true, false)
  {
    j := SiteOfIs(s, Direct(s.inodes[d].ptr), name);
    ScanSingle(s, k, o, Slack(s.blocks[k], o), o + RecLen(s.blocks[k], o), i, name);
  }

  /** A revival seen as two steps: the inode comes into use, then two records are relinked. */
  lemma ReviveState(s: State, k: nat, before: nat, q: nat, end: nat, name: Name, exact: bool := true)
    returns (t: State, n: nat)
    requires Inv(s, exact) && k < |s.blocks|
    requires before + HEADER <= q && q + MIN_SLOT <= end <= BLOCK_SIZE && Candidate(s, k, q, name)
    ensures n + 1 == Ino(s.blocks[k], q) && Used(t, n) && !Reserved(n) && !IsDir(t.inodes[n].mode)
    ensures t.inodes[n].links == 0
    ensures t.blocks == s.blocks && t.inodes == s.inodes && AllocOk(t) && TreeOk(t, exact)
    ensures forall m: nat :: Used(s, m) ==> Used(t, m)
    ensures var r := Revive(s, k, before, q, end);
            AllocOk(r) && Relinks(t, r, k, n, Relink(s.blocks[k], before, q, end))
  {
    n := Ino(s.blocks[k], q) - 1;
    t := Taken(s, n);
    assert InodeSound(s, n, exact);
    ReservedAreMarked(s, exact);
    TakenTree(s, n, exact);
    TakenAlloc(s, n);
    ReviveAlloc(s, k, before, q, end, name);
    ReviveRelinks(s, k, before, q, end);
  }

  lemma ReviveFirst(s: State, d: nat, j: nat, k: nat, o: nat, q: nat, end: nat, name: Name) returns (r: State)
    requires Inv(s) && UsedDir(s, d) && j < NumDirect(s.inodes[d].ptr) && s.inodes[d].ptr[j] == k && k < |s.blocks|
    requires RecOk(s.blocks[k], o) && Chain(s.blocks[k], 0, o) && Slack(s.blocks[k], o) != []
    requires end == o + RecLen(s.blocks[k], o) && Chain(s.blocks[k], end, BLOCK_SIZE)
    requires q == Slack(s.blocks[k], o)[0] && q + HEADER <= BLOCK_SIZE && Candidate(s, k, q, name)
    ensures Inv(r)
    ensures o + HEADER <= q && q + MIN_SLOT <= end && r == Revive(s, k, o, q, end)
  {
    SlackHead(s.blocks[k], o);
    var t, n := ReviveState(s, k, o, q, end, name);
    r := Revive(s, k, o, q, end);
    RelinkedTree(t, r, d, j, o, n);
  }

  /** A match directly behind its live predecessor comes back with everything in order. */
  lemma RestoreFirst(s: State, d: nat, name: Name, k: nat, o: nat)
    requires Inv(s) && SingleSite(s, d, name, k, o, 0)
    ensures Inv(RestoreDirEntry(s, d, name).s)
  {
    var j := SingleScan(s, d, name, k, o, 0);
    var r := ReviveFirst(s, d, j, k, o, Slack(s.blocks[k], o)[0], o + RecLen(s.blocks[k], o), name);
  }

  lemma HiddenAfter(o: nat, hs: seq<nat>, end: nat, i: nat)
    requires Ascending(o, hs, end) && 0 < i < |hs|
    ensures hs[0] <= hs[i - 1]
  {
    if i > 1 { AscendingIn(hs[0], hs[1..], end, hs[i - 1]); assert hs[1..][i - 2] == hs[i - 1]; }
  }

  lemma DeeperSame(t: State, s': State, k: nat, n: nat, b': Block, exact: bool := true)
    requires TreeOk(t, exact) && Relinks(t, s', k, n, b') && BlockOk(b')
    requires BlockOk(t.blocks[k]) ==> Live(b') == Live(t.blocks[k])
    ensures forall d: nat, ino: nat :: DirCount(s', d, ino) == DirCount(t, d, ino)
  {
    forall d: nat, ino: nat ensures DirCount(s', d, ino) == DirCount(t, d, ino) {
      if UsedDir(t, d) {
        assert DirSound(t, d);
        LiveOfSame(t.blocks, s'.blocks, Direct(t.inodes[d].ptr), k);
      }
    }
  }

  lemma {:induction false} LiveOfSame(blocks: seq<Block>, blocks': seq<Block>, ps: seq<nat>, k: nat)
    requires BlocksOk(blocks, ps) && k < |blocks| == |blocks'| && blocks' == blocks[k := blocks'[k]]
    requires BlockOk(blocks'[k]) && (BlockOk(blocks[k]) ==> Live(blocks'[k]) == Live(blocks[k]))
    ensures BlocksOk(blocks', ps) && LiveOf(blocks', ps) == LiveOf(blocks, ps)
  {
    if ps != [] { LiveOfSame(blocks, blocks', ps[1..], k); }
  }

  /** The chain stays, so the inode is in use with a link nobody holds. */
  lemma DeeperLost(t: State, s': State, k: nat, n: nat, b': Block)
    requires TreeOk(t) && Relinks(t, s', k, n, b') && Used(t, n) && t.inodes[n].links == 0
    requires BlockOk(b') && BlockOk(t.blocks[k]) && Live(b') == Live(t.blocks[k])
    ensures !TreeOk(s')
  {
    DeeperSame(t, s', k, n, b');
    RelinkedLost(t, s', n);
  }

  lemma ReviveDeeper(s: State, k: nat, o: nat, p: nat, q: nat, name: Name)
    requires Inv(s) && k < |s.blocks| && BlockOk(s.blocks[k]) && RecOk(s.blocks[k], o) && Chain(s.blocks[k], 0, o)
    requires Chain(s.blocks[k], o + RecLen(s.blocks[k], o), BLOCK_SIZE)
    requires o + MinLen(NameLen(s.blocks[k], o)) <= p && p + HEADER <= q && q + MIN_SLOT <= o + RecLen(s.blocks[k], o)
    requires Candidate(s, k, q, name)
    ensures !TreeOk(Revive(s, k, p, q, o + RecLen(s.blocks[k], o)))
  {
    var end := o + RecLen(s.blocks[k], o);
    var b' := Relink(s.blocks[k], p, q, end);
    RelinkHidden(s.blocks[k], o, p, q);
    DeeperAt(s, k, p, q, end, name, b');
  }

  lemma DeeperAt(s: State, k: nat, p: nat, q: nat, end: nat, name: Name, b': Block)
    requires Inv(s) && k < |s.blocks| && p + HEADER <= q && q + MIN_SLOT <= end <= BLOCK_SIZE
    requires Candidate(s, k, q, name) && b' == Relink(s.blocks[k], p, q, end)
    requires BlockOk(s.blocks[k]) && BlockOk(b') && Live(b') == Live(s.blocks[k])
    ensures !TreeOk(Revive(s, k, p, q, end))
  {
    var t, n := ReviveState(s, k, p, q, end, name);
    DeeperLost(t, Revive(s, k, p, q, end), k, n, b');
  }

  /** A match further down in the slack comes back as an inode that no directory lists. */
  lemma RestoreDeeper(s: State, d: nat, name: Name, k: nat, o: nat, i: nat)
    requires Inv(s) && SingleSite(s, d, name, k, o, i) && i > 0
    ensures !TreeOk(RestoreDirEntry(s, d, name).s)
  {
    var j := SingleScan(s, d, name, k, o, i);
    var hs := Slack(s.blocks[k], o);
    HiddenAfter(o, hs, o + RecLen(s.blocks[k], o), i);
    SlackHead(s.blocks[k], o);
    assert Direct(s.inodes[d].ptr)[j] == k;
    ReviveDeeper(s, k, o, hs[i - 1], hs[i], name);
  }
}

/** Removing a file and restoring it gives back the disk, and exactly when it does. */
module RmRestore {
  import opened Options
  import opened Bytes
  import opened Records
  import opened DirBlocks
  import opened DiskState
  import opened Directory
  import opened Invariant
  import opened Insertion
  import opened RemovalProofs
  import opened Restoration
  import opened RestoreProofs
  import opened RestoreTree

  // ---------- the bytes ----------

  lemma Same16(b: Block, b': Block, o: nat)
    requires o + 2 <= BLOCK_SIZE && Get16(b', o) == Get16(b, o)
    ensures b'[o] == b[o] && b'[o + 1] == b[o + 1]
  {
  }

  /** Relinking right after unlinking puts both lengths back. */
  lemma RelinkUndoesUnlink(b: Block, p: nat, f: nat)
    requires RecOk(b, p) && f == p + RecLen(b, p) && RecOk(b, f)
    ensures Relink(Unlink(b, p), p, f, f + RecLen(b, f)) == b
  {
    var u := Unlink(b, p);
    var b' := Relink(u, p, f, f + RecLen(b, f));
    UnlinkMerges(b, p, f);
    RelinkFrame(u, p, f, f + RecLen(b, f));
    Same16(b, b', p + 4);
    Same16(b, b', f + 4);
    assert forall i :: 0 <= i < BLOCK_SIZE ==> b'[i] == b[i];
  }

  // ---------- bits and counters ----------

  lemma CountersBack(x: nat, c: nat)
    requires x < 0x1_0000
    ensures U32(U32(x + c) - c) == x && U16(U16(x + c) - c) == x
  {
  }

  lemma TakeUndoesDrop(s: State, n: nat)
    requires AllocOk(s) && Used(s, n)
    ensures Taken(Freed(s, n), n) == s
  {
    var ps := Direct(s.inodes[n].ptr);
    var t := Taken(Freed(s, n), n);
    SubsetCard(FreeBlocks(s), |s.blockBits|);
    SubsetCard(FreeInodes(s), |s.inodeBits|);
    CountersBack(s.sbFreeBlocks, |ps|);
    CountersBack(s.sbFreeInodes, 1);
    assert t.inodeBits == s.inodeBits;
    MarkedBack(s, ps, n);
  }

  lemma MarkedBack(s: State, ps: seq<nat>, n: nat)
    requires AllocOk(s) && Used(s, n) && ps == Direct(s.inodes[n].ptr)
    ensures TakeAll(DropAll(s, ps), ps).blockBits == s.blockBits
  {
    assert MarksOwned(s, n);
    forall k | 0 <= k < |s.blockBits| && k + 1 in ps ensures s.blockBits[k] { assert k + 1 in Owned(s, n); }
  }

  // ---------- the removed record in the slack ----------

  lemma {:induction false} SlackIn(b: Block, o: nat, p: nat, q: nat)
    requires Chain(b, o, p) && RecOk(b, p) && Chain(b, p + RecLen(b, p), BLOCK_SIZE) && q in Slack(b, p)
    ensures Chain(b, o, BLOCK_SIZE) && q in HiddenIn(b, o)
    decreases p - o
  {
    ChainCons(b, p, At(b, p), BLOCK_SIZE);
    ChainAppend(b, o, p, BLOCK_SIZE);
    if o < p {
      SlackIn(b, o + At(b, o).len, p, q);
    }
  }

  /** Two records of one chain that reach over the same byte are the same record. */
  lemma {:induction false} SameRecord(b: Block, o: nat, p: nat, r: nat, q: nat)
    requires Chain(b, o, p) && RecOk(b, p) && Chain(b, o, r) && RecOk(b, r)
    requires p <= q < p + RecLen(b, p) && r <= q < r + RecLen(b, r)
    ensures p == r
    decreases p - o
  {
    if o < p && o < r {
      SameRecord(b, o + At(b, o).len, p, r, q);
    } else if o < p {
      ChainStart(b, o, p);
    } else if o < r {
      ChainStart(b, o, r);
    }
  }

  lemma ChainStart(b: Block, o: nat, p: nat)
    requires Chain(b, o, p) && o < p
    ensures o + RecLen(b, o) <= p
  {
    ChainLe(b, o + RecLen(b, o), p);
  }

  lemma ChainLe(b: Block, o: nat, p: nat)
    requires Chain(b, o, p)
    ensures o <= p
  {
  }

  lemma SlackBounds(b: Block, o: nat, q: nat)
    requires RecOk(b, o) && q in Slack(b, o)
    ensures o + HEADER <= q && q + MIN_SLOT <= o + RecLen(b, o)
  {
    AscendingIn(o, Slack(b, o), o + RecLen(b, o), q);
  }

  // ---------- removal, then restore ----------

  /** The disk after removal of the last link. */
  ghost predicate RemovedTo(s: State, s1: State, k: nat, p: nat, f: nat, n: nat) {
    && k < |s.blocks| && RecOk(s.blocks[k], p) && f == p + RecLen(s.blocks[k], p) && RecOk(s.blocks[k], f)
    && Shaped(s) && n < |s.inodes| && Ino(s.blocks[k], f) == n + 1
    && s1 == Freed(AddLinks(SetBlock(s, k, Unlink(s.blocks[k], p)), n, -1), n)
  }

  lemma UnlinkKeepsIno(b: Block, p: nat, f: nat)
    requires RecOk(b, p) && f == p + RecLen(b, p) && RecOk(b, f)
    ensures Ino(Unlink(b, p), f) == Ino(b, f) && RecLen(Unlink(b, p), p) == RecLen(b, p) + RecLen(b, f)
    ensures NameOf(Unlink(b, p), f) == NameOf(b, f) && FileType(Unlink(b, p), f) == FileType(b, f)
    ensures RecOk(Unlink(b, p), p) && NameLen(Unlink(b, p), p) == NameLen(b, p)
  {
    UnlinkMerges(b, p, f);
  }

  lemma FreedAround(u: State, n: nat, i: Inode, k: nat, b: Block)
    requires Shaped(u) && n < |u.inodes| && k < |u.blocks| && i.ptr == u.inodes[n].ptr
    ensures SetBlock(SetInode(Freed(u, n), n, i), k, b) == Freed(SetBlock(SetInode(u, n, i), k, b), n)
  {
  }

  /** Relinking the removed record to its tight predecessor gives back the disk. */
  lemma ReviveUndoes(s: State, s1: State, k: nat, p: nat, f: nat, n: nat)
    requires AllocOk(s) && Used(s, n) && RemovedTo(s, s1, k, p, f, n)
    requires s.inodes[n].links == 1 && s.inodes[n].dtime == 0
    requires p + HEADER <= f && Ino(s1.blocks[k], f) == n + 1
    ensures Revive(s1, k, p, f, f + RecLen(s.blocks[k], f)) == s
  {
    RelinkedBack(s, s1, k, p, f, n);
    TakeUndoesDrop(s, n);
  }

  lemma RelinkedBack(s: State, s1: State, k: nat, p: nat, f: nat, n: nat)
    requires RemovedTo(s, s1, k, p, f, n) && s.inodes[n].links == 1 && s.inodes[n].dtime == 0
    requires p + HEADER <= f && Ino(s1.blocks[k], f) == n + 1
    ensures Relinked(s1, k, p, f, f + RecLen(s.blocks[k], f)) == Freed(s, n)
  {
    var u := AddLinks(SetBlock(s, k, Unlink(s.blocks[k], p)), n, -1);
    RelinkUndoesUnlink(s.blocks[k], p, f);
    var i := u.inodes[n].(dtime := 0, links := U16(u.inodes[n].links + 1));
    assert i == s.inodes[n];
    FreedAround(u, n, i, k, s.blocks[k]);
    StoresBack(s, u, k, n, Unlink(s.blocks[k], p));
  }

  lemma StoresBack(s: State, u: State, k: nat, n: nat, b: Block)
    requires k < |s.blocks| && n < |s.inodes| && u == AddLinks(SetBlock(s, k, b), n, -1)
    ensures |u.inodes| == |s.inodes| && |u.blocks| == |s.blocks|
    ensures SetBlock(SetInode(u, n, s.inodes[n]), k, s.blocks[k]) == s
  {
    assert SetBlock(SetInode(u, n, s.inodes[n]), k, s.blocks[k]).blocks == s.blocks;
    assert SetBlock(SetInode(u, n, s.inodes[n]), k, s.blocks[k]).inodes == s.inodes;
  }

  /** Whatever hidden record of directory blocks `ps` is a match for `name`, it is the one at `f` of `k`. */
  ghost predicate OnlyMatchIs(s: State, ps: seq<nat>, name: Name, k: nat, f: nat)
    requires BlocksOk(s.blocks, ps)
  {
    forall j, q :: 0 <= j < |ps| && q in HiddenIn(s.blocks[ps[j]], 0) && Matches(s, ps[j], q, name) ==>
      ps[j] == k && q == f
  }

  /** Then a restore can only take effect behind the live record that covers it. */
  lemma SiteCovers(s: State, ps: seq<nat>, name: Name, k: nat, p: nat, f: nat)
    requires |s.inodes| == |s.inodeBits| && BlocksOk(s.blocks, ps) && k < |s.blocks| && OnlyMatchIs(s, ps, name, k, f)
    requires RecOk(s.blocks[k], p) && Chain(s.blocks[k], 0, p) && p <= f < p + RecLen(s.blocks[k], p)
    requires SiteOf(s, ps, name).Some?
    ensures SiteOf(s, ps, name) == Some((k, p)) && MatchSite(s, k, p, name)
    ensures f in Slack(s.blocks[k], p) && Matches(s, k, f, name)
    ensures ScanBlocks(s, ps, name) == ScanAt(s, k, p, name) && k in ps
  {
    var j := SiteOfIs(s, ps, name);
    var (k2, o2) := SiteOf(s, ps, name).value;
    SiteMatch(s, ps, name, k, f, j, o2);
    SlackBounds(s.blocks[k], o2, f);
    SameRecord(s.blocks[k], 0, p, o2, f);
  }

  lemma SiteMatch(s: State, ps: seq<nat>, name: Name, k: nat, f: nat, j: nat, o: nat)
    requires BlocksOk(s.blocks, ps) && OnlyMatchIs(s, ps, name, k, f) && j < |ps|
    requires MatchSite(s, ps[j], o, name) && Chain(s.blocks[ps[j]], 0, o)
    ensures ps[j] == k && f in Slack(s.blocks[k], o) && Matches(s, k, f, name)
  {
    var q :| q in Slack(s.blocks[ps[j]], o) && Matches(s, ps[j], q, name);
    SlackIn(s.blocks[ps[j]], 0, o, q);
    assert q in HiddenIn(s.blocks[ps[j]], 0);
  }

  lemma OnlyMatchAt(s: State, ps: seq<nat>, name: Name, k: nat, p: nat, f: nat) returns (i: nat)
    requires BlocksOk(s.blocks, ps) && k in ps && k < |s.blocks| && OnlyMatchIs(s, ps, name, k, f)
    requires RecOk(s.blocks[k], p) && Chain(s.blocks[k], 0, p)
    requires Chain(s.blocks[k], p + RecLen(s.blocks[k], p), BLOCK_SIZE)
    requires f in Slack(s.blocks[k], p) && Matches(s, k, f, name)
    ensures i < |Slack(s.blocks[k], p)| && Slack(s.blocks[k], p)[i] == f
    ensures OnlyMatch(s, k, Slack(s.blocks[k], p), i, name)
  {
    var hs, end := Slack(s.blocks[k], p), p + RecLen(s.blocks[k], p);
    var j :| 0 <= j < |ps| && ps[j] == k;
    i :| 0 <= i < |hs| && hs[i] == f;
    forall m | 0 <= m < |hs| && m != i ensures !Matches(s, k, hs[m], name) {
      SlackIn(s.blocks[k], 0, p, hs[m]);
      assert hs[m] in HiddenIn(s.blocks[ps[j]], 0);
      if m < i { AscendingDistinct(p, hs, end, m, i); } else { AscendingDistinct(p, hs, end, i, m); }
    }
  }

  lemma {:induction false} AscendingDistinct(o: nat, hs: seq<nat>, end: nat, i: nat, j: nat)
    requires Ascending(o, hs, end) && i < j < |hs|
    ensures hs[i] < hs[j]
    decreases i
  {
    if i == 0 {
      assert hs[1..][j - 1] == hs[j];
      AscendingIn(hs[0], hs[1..], end, hs[j]);
    } else {
      AscendingDistinct(hs[0], hs[1..], end, i - 1, j - 1);
    }
  }

  /** What removal finds: the record at `f` of block `k`, behind the one at `p`. */
  ghost predicate RmSite(s: State, d: nat, name: Name, k: nat, p: nat, f: nat) {
    && DirOk(s, d) && !FirstInBlock(s, d, name) && FindRemoval(s, d, name) == Some(Removal(k, p, f))
  }

  lemma RmSiteBlock(s: State, d: nat, name: Name, k: nat, p: nat, f: nat)
    requires RmSite(s, d, name, k, p, f)
    ensures k < |s.blocks| && k in Direct(s.inodes[d].ptr)
    ensures var b := s.blocks[k];
            && RecOk(b, p) && f == p + RecLen(b, p) && RecOk(b, f) && NameOf(b, f) == name
            && Chain(b, 0, p) && Chain(b, f + RecLen(b, f), BLOCK_SIZE)
  {
    var ps := Direct(s.inodes[d].ptr);
    var j := SlotIndex(s.blocks, ps, name);
    var k', f' := ps[j], FindSlot(s.blocks, ps, name).value.1;
    var p' := RemovalAt(s, d, name, k', f');
    assert (k', p', f') == (k, p, f);
    BeforeIs(s.blocks[k], f, name);
  }

  /** The block after removal: the record is hidden behind `p`. */
  lemma RmSiteAfter(b: Block, p: nat, f: nat)
    requires RecOk(b, p) && f == p + RecLen(b, p) && RecOk(b, f)
    requires Chain(b, 0, p) && Chain(b, f + RecLen(b, f), BLOCK_SIZE)
    ensures var u := Unlink(b, p);
            && RecOk(u, p) && p + RecLen(u, p) == f + RecLen(b, f) && Chain(u, 0, p)
            && Chain(u, p + RecLen(u, p), BLOCK_SIZE) && p <= f < p + RecLen(u, p)
  {
    UnlinkMerges(b, p, f);
    UnlinkKeepsIno(b, p, f);
    ChainFrame(b, Unlink(b, p), 0, p);
    ChainFrame(b, Unlink(b, p), f + RecLen(b, f), BLOCK_SIZE);
  }

  /** With a tight predecessor the removed record heads the slack. */
  lemma TightSlack(b: Block, p: nat, f: nat)
    requires RecOk(b, p) && f == p + RecLen(b, p) && RecOk(b, f) && Ino(b, f) > 0
    requires RecLen(b, p) == MinLen(NameLen(b, p))
    ensures var u := Unlink(b, p); RecOk(u, p) && Slack(u, p) != [] && Slack(u, p)[0] == f
  {
    UnlinkKeepsIno(b, p, f);
    UnlinkMerges(b, p, f);
    assert NameLen(Unlink(b, p), f) == NameLen(b, f);
  }

  lemma RmStep(s: State, d: nat, name: Name, k: nat, p: nat, f: nat) returns (n: nat)
    requires Inv(s) && CanRemove(s, d, name) && RmSite(s, d, name, k, p, f)
    ensures k < |s.blocks| && p + HEADER <= BLOCK_SIZE && p + RecLen(s.blocks[k], p) == f && f + HEADER <= BLOCK_SIZE
    ensures Used(s, n) && 0 < s.inodes[n].links < 0x1_0000 && Ino(s.blocks[k], f) == n + 1
    ensures RmDirEntry(s, d, name) == (DropLink(SetBlock(s, k, Unlink(s.blocks[k], p)), n), true)
    ensures UsedDir(s, d) && !IsDir(s.inodes[n].mode)
  {
    n := RmInode(s, d, name);
    RmIs(s, d, name);
    var y := UnlinkedEntry(s, d, name);
    LinksPositive(s, d, y);
    assert InodeSound(s, n);
  }

  /** The last link: the inode and its blocks are freed, so the hidden record is a match. */
  lemma RemovedMatches(s: State, s1: State, k: nat, p: nat, f: nat, n: nat, name: Name)
    requires RemovedTo(s, s1, k, p, f, n) && Used(s, n) && NameOf(s.blocks[k], f) == name
    ensures Matches(s1, k, f, name)
  {
    UnlinkKeepsIno(s.blocks[k], p, f);
  }

  /** Another link remains: the inode stays in use, so the hidden record is none. */
  lemma LinkedNoMatch(s: State, k: nat, p: nat, f: nat, n: nat, name: Name)
    requires Shaped(s) && k < |s.blocks| && RecOk(s.blocks[k], p) && f == p + RecLen(s.blocks[k], p)
    requires RecOk(s.blocks[k], f)
    requires Used(s, n) && Ino(s.blocks[k], f) == n + 1 && 1 < s.inodes[n].links < 0x1_0000
    ensures !Matches(DropLink(SetBlock(s, k, Unlink(s.blocks[k], p)), n), k, f, name)
  {
    UnlinkKeepsIno(s.blocks[k], p, f);
  }

  /**
   * The slacks of the directory can be read, and no record hidden there after the removal matches
   * `name`, save the removed one.
   */
  ghost predicate NoOtherMatch(s: State, d: nat, name: Name, k: nat, f: nat) {
    && DirOk(s, d) && DirSlacksOk(s, d) && OnlyMatchIs(s, Direct(s.inodes[d].ptr), name, k, f)
  }

  /** The removed inode had one link and no deletion time, and the record before it was tight. */
  ghost predicate Undoable(s: State, k: nat, p: nat, n: nat)
    requires k < |s.blocks| && p + HEADER <= BLOCK_SIZE && n < |s.inodes|
  {
    && s.inodes[n].links == 1 && s.inodes[n].dtime == 0
    && RecLen(s.blocks[k], p) == MinLen(NameLen(s.blocks[k], p))
  }

  /** The site of the restore, for a removal to `s1` after which nothing else matches. */
  lemma RestoreSite(s: State, s1: State, d: nat, name: Name, k: nat, p: nat, f: nat)
    requires Shaped(s1) && UsedDir(s1, d) && NoOtherMatch(s1, d, name, k, f)
    requires RmSite(s, d, name, k, p, f) && k < |s.blocks| && p + HEADER <= BLOCK_SIZE
    requires f == p + RecLen(s.blocks[k], p) && f + HEADER <= BLOCK_SIZE && d < |s.inodes|
    requires s1.blocks == s.blocks[k := Unlink(s.blocks[k], p)]
    requires s1.inodes[d].ptr == s.inodes[d].ptr
    ensures RecOk(s1.blocks[k], p) && k in Direct(s1.inodes[d].ptr) && f + HEADER <= BLOCK_SIZE
    ensures RestoreDirEntry(s1, d, name) == Scan(s1, false, false)
         || (SiteOf(s1, Direct(s1.inodes[d].ptr), name) == Some((k, p)) && f in Slack(s1.blocks[k], p)
             && Matches(s1, k, f, name) && RestoreDirEntry(s1, d, name) == ScanAt(s1, k, p, name))
  {
    var ps := Direct(s1.inodes[d].ptr);
    RmSiteBlock(s, d, name, k, p, f);
    RmSiteAfter(s.blocks[k], p, f);
    var j := SiteOfIs(s1, ps, name);
    if SiteOf(s1, ps, name).Some? {
      SiteCovers(s1, ps, name, k, p, f);
    }
  }

  lemma LastLink(s: State, k: nat, p: nat, f: nat, n: nat)
    requires Shaped(s) && k < |s.blocks| && RecOk(s.blocks[k], p) && f == p + RecLen(s.blocks[k], p)
    requires RecOk(s.blocks[k], f)
    requires n < |s.inodes| && Ino(s.blocks[k], f) == n + 1 && s.inodes[n].links == 1
    ensures RemovedTo(s, DropLink(SetBlock(s, k, Unlink(s.blocks[k], p)), n), k, p, f, n)
  {
  }

  lemma RemovedBlock(s: State, s1: State, k: nat, p: nat, f: nat, n: nat)
    requires RemovedTo(s, s1, k, p, f, n)
    ensures |s1.blocks| == |s.blocks| && s1.blocks[k] == Unlink(s.blocks[k], p) && RecOk(s1.blocks[k], p)
    ensures p + HEADER <= f && f + HEADER <= BLOCK_SIZE && Ino(s1.blocks[k], f) == n + 1
    ensures FileType(s1.blocks[k], f) == FileType(s.blocks[k], f)
    ensures p + RecLen(s1.blocks[k], p) == f + RecLen(s.blocks[k], f)
  {
    UnlinkKeepsIno(s.blocks[k], p, f);
  }

  lemma DropLinkKeeps(u: State, n: nat, d: nat)
    requires Shaped(u) && n < |u.inodes| && UsedDir(u, d) && d != n && PointersOk(u.inodes[n].ptr, |u.blocks|)
    ensures var s1 := DropLink(u, n);
            && Shaped(s1) && UsedDir(s1, d) && s1.blocks == u.blocks && |s1.inodes| == |u.inodes|
            && forall m :: 0 <= m < |u.inodes| ==> s1.inodes[m].ptr == u.inodes[m].ptr
  {
  }

  lemma UndoSite(s: State, s1: State, d: nat, name: Name, k: nat, p: nat, f: nat, n: nat)
    requires AllocOk(s) && Used(s, n) && UsedDir(s, d) && !IsDir(s.inodes[n].mode) && RemovedTo(s, s1, k, p, f, n)
    requires Shaped(s1) && UsedDir(s1, d) && s1.inodes[d].ptr == s.inodes[d].ptr
    requires RmSite(s, d, name, k, p, f) && NoOtherMatch(s1, d, name, k, f)
    requires RecLen(s.blocks[k], p) == MinLen(NameLen(s.blocks[k], p))
    ensures RecOk(s1.blocks[k], p) && OnlyMatch(s1, k, Slack(s1.blocks[k], p), 0, name)
    ensures Slack(s1.blocks[k], p)[0] == f && RestoreDirEntry(s1, d, name) == ScanAt(s1, k, p, name)
  {
    var ps := Direct(s1.inodes[d].ptr);
    var b, u := s.blocks[k], s1.blocks[k];
    RmSiteBlock(s, d, name, k, p, f);
    RmSiteAfter(b, p, f);
    TightSlack(b, p, f);
    RemovedMatches(s, s1, k, p, f, n, name);
    SlackIn(u, 0, p, f);
    var j :| 0 <= j < |ps| && ps[j] == k;
    ScanBlocksEffect(s1, ps, name);
    assert HidesMatch(s1, ps, name);
    RestoreSite(s, s1, d, name, k, p, f);
    var i := OnlyMatchAt(s1, ps, name, k, p, f);
    assert i == 0;
  }

  lemma ScanFirst(s: State, k: nat, p: nat, f: nat, end: nat, name: Name)
    requires Shaped(s) && k < |s.blocks| && RecOk(s.blocks[k], p) && OnlyMatch(s, k, Slack(s.blocks[k], p), 0, name)
    requires f == Slack(s.blocks[k], p)[0] && f + HEADER <= BLOCK_SIZE && FileType(s.blocks[k], f) != FT_DIR
    requires end == p + RecLen(s.blocks[k], p)
    ensures p + HEADER <= f && f + MIN_SLOT <= end
    ensures ScanAt(s, k, p, name) == Scan(Revive(s, k, p, f, end), true, false)
  {
    ScanSingle(s, k, p, Slack(s.blocks[k], p), end, 0, name);
  }

  lemma ScanUndoes(s: State, s1: State, k: nat, p: nat, f: nat, n: nat, name: Name)
    requires AllocOk(s) && Used(s, n) && RemovedTo(s, s1, k, p, f, n) && Undoable(s, k, p, n)
    requires FileType(s.blocks[k], f) != FT_DIR && RecOk(s1.blocks[k], p)
    requires OnlyMatch(s1, k, Slack(s1.blocks[k], p), 0, name) && Slack(s1.blocks[k], p)[0] == f
    ensures ScanAt(s1, k, p, name) == Scan(s, true, false)
  {
    RemovedBlock(s, s1, k, p, f, n);
    ScanFirst(s1, k, p, f, f + RecLen(s.blocks[k], f), name);
    ReviveUndoes(s, s1, k, p, f, n);
  }

  lemma UndoAt(s: State, s1: State, d: nat, name: Name, k: nat, p: nat, f: nat, n: nat)
    requires AllocOk(s) && Used(s, n) && UsedDir(s, d) && !IsDir(s.inodes[n].mode) && RemovedTo(s, s1, k, p, f, n)
    requires Shaped(s1) && UsedDir(s1, d) && s1.inodes[d].ptr == s.inodes[d].ptr
    requires RmSite(s, d, name, k, p, f) && FileType(s.blocks[k], f) != FT_DIR && Undoable(s, k, p, n)
    requires NoOtherMatch(s1, d, name, k, f)
    ensures RestoreDirEntry(s1, d, name) == Scan(s, true, false)
  {
    UndoSite(s, s1, d, name, k, p, f, n);
    ScanUndoes(s, s1, k, p, f, n, name);
  }

  /** The record behind `p` is unlinked, and its inode has one link less. */
  ghost predicate Dropped(s: State, s1: State, k: nat, p: nat, n: nat)
    requires Shaped(s) && k < |s.blocks| && RecOk(s.blocks[k], p) && n < |s.inodes|
    requires p + RecLen(s.blocks[k], p) + HEADER <= BLOCK_SIZE
  {
    s1 == DropLink(SetBlock(s, k, Unlink(s.blocks[k], p)), n)
  }

  lemma RmFacts(s: State, s1: State, d: nat, name: Name, k: nat, p: nat, f: nat, n: nat)
    requires Inv(s) && CanRemove(s, d, name) && RmSite(s, d, name, k, p, f) && s1 == RmDirEntry(s, d, name).0
    requires k < |s.blocks| && f + HEADER <= BLOCK_SIZE && n < |s.inodes| && Ino(s.blocks[k], f) == n + 1
    ensures RecOk(s.blocks[k], p) && f == p + RecLen(s.blocks[k], p) && RecOk(s.blocks[k], f)
    ensures Used(s, n) && 0 < s.inodes[n].links < 0x1_0000 && UsedDir(s, d) && d != n
    ensures Dropped(s, s1, k, p, n)
    ensures Shaped(s1) && UsedDir(s1, d) && s1.inodes[d].ptr == s.inodes[d].ptr
    ensures s1.blocks == s.blocks[k := Unlink(s.blocks[k], p)]
  {
    var m := RmStep(s, d, name, k, p, f);
    RmSiteBlock(s, d, name, k, p, f);
    var u := SetBlock(s, k, Unlink(s.blocks[k], p));
    SetBlockKeeps(s, u, k, Unlink(s.blocks[k], p), n, d);
    DropLinkKeeps(u, n, d);
  }

  lemma SetBlockKeeps(s: State, u: State, k: nat, b: Block, n: nat, d: nat)
    requires AllocOk(s) && k < |s.blocks| && n < |s.inodes| && UsedDir(s, d) && u == SetBlock(s, k, b)
    ensures Shaped(u) && n < |u.inodes| && UsedDir(u, d) && PointersOk(u.inodes[n].ptr, |u.blocks|)
  {
  }

  /** Remove, then restore: the disk is back, bit for bit and byte for byte. */
  lemma RestoreUndoesRm(s: State, s1: State, d: nat, name: Name, k: nat, p: nat, f: nat, n: nat)
    requires Inv(s) && CanRemove(s, d, name) && RmSite(s, d, name, k, p, f) && s1 == RmDirEntry(s, d, name).0
    requires k < |s.blocks| && f + HEADER <= BLOCK_SIZE && FileType(s.blocks[k], f) != FT_DIR
    requires n < |s.inodes| && Ino(s.blocks[k], f) == n + 1 && p + HEADER <= BLOCK_SIZE && Undoable(s, k, p, n)
    requires NoOtherMatch(s1, d, name, k, f)
    ensures RestoreDirEntry(s1, d, name) == Scan(s, true, false)
  {
    RmFacts(s, s1, d, name, k, p, f, n);
    LastLink(s, k, p, f, n);
    UndoAt(s, s1, d, name, k, p, f, n);
  }

  lemma ReviveTells(s1: State, k: nat, o: nat, q: nat, end: nat, p: nat)
    requires Shaped(s1) && k < |s1.blocks| && o + HEADER <= q && q + MIN_SLOT <= end <= BLOCK_SIZE
    requires 0 < Ino(s1.blocks[k], q) <= |s1.inodes| && p + HEADER <= BLOCK_SIZE
    ensures var r := Revive(s1, k, o, q, end);
            && r.inodes[Ino(s1.blocks[k], q) - 1].dtime == 0 && |r.blocks| == |s1.blocks|
            && (p + HEADER <= o ==> RecLen(r.blocks[k], p) == RecLen(s1.blocks[k], p))
  {
    RelinkFrame(s1.blocks[k], o, q, end);
  }

  /** A pass that gives back the disk relinked the record to its tight, live predecessor. */
  lemma ScanNeeds(s: State, s1: State, k: nat, p: nat, f: nat, n: nat, name: Name, i: nat)
    requires Shaped(s1) && n < |s.inodes| && RemovedTo(s, s1, k, p, f, n) && s.inodes[n].links == 1
    requires FileType(s.blocks[k], f) != FT_DIR && RecOk(s1.blocks[k], p)
    requires OnlyMatch(s1, k, Slack(s1.blocks[k], p), i, name) && Slack(s1.blocks[k], p)[i] == f
    requires ScanAt(s1, k, p, name) == Scan(s, true, false)
    ensures Undoable(s, k, p, n)
  {
    var b, u := s.blocks[k], s1.blocks[k];
    var hs, end := Slack(u, p), p + RecLen(u, p);
    RemovedBlock(s, s1, k, p, f, n);
    ScanSingle(s1, k, p, hs, end, i, name);
    SlackHead(u, p);
    UnlinkKeepsIno(b, p, f);
    var before := if i == 0 then p else hs[i - 1];
    ReviveTells(s1, k, before, f, end, p);
    if i > 0 {
      HiddenAfter(p, hs, end, i);
    }
  }

  /**
   * Remove, then restore, when nothing else hidden in the directory matches the name: the disk is
   * exactly the old one if and only if the file had one link and no deletion time and the record
   * before it had no slack.
   */
  lemma RmRestoreIff(s: State, s1: State, d: nat, name: Name, k: nat, p: nat, f: nat, n: nat)
    requires Inv(s) && CanRemove(s, d, name) && RmSite(s, d, name, k, p, f) && s1 == RmDirEntry(s, d, name).0
    requires k < |s.blocks| && f + HEADER <= BLOCK_SIZE && FileType(s.blocks[k], f) != FT_DIR
    requires n < |s.inodes| && Ino(s.blocks[k], f) == n + 1 && p + HEADER <= BLOCK_SIZE
    requires NoOtherMatch(s1, d, name, k, f)
    ensures RestoreDirEntry(s1, d, name) == Scan(s, true, false) <==> Undoable(s, k, p, n)
  {
    if Undoable(s, k, p, n) {
      RestoreUndoesRm(s, s1, d, name, k, p, f, n);
    } else if RestoreDirEntry(s1, d, name) == Scan(s, true, false) {
      RestoreNeeds(s, s1, d, name, k, p, f, n);
    }
  }

  lemma NeedsSite(s: State, s1: State, d: nat, name: Name, k: nat, p: nat, f: nat)
    requires Shaped(s) && UsedDir(s, d) && RmSite(s, d, name, k, p, f) && k < |s.blocks| && p + HEADER <= BLOCK_SIZE
    requires p + RecLen(s.blocks[k], p) == f && f + HEADER <= BLOCK_SIZE && NoOtherMatch(s1, d, name, k, f)
    requires Shaped(s1) && UsedDir(s1, d) && s1.inodes[d].ptr == s.inodes[d].ptr
    requires s1.blocks == s.blocks[k := Unlink(s.blocks[k], p)]
    requires RestoreDirEntry(s1, d, name).done
    ensures RecOk(s1.blocks[k], p) && k in Direct(s1.inodes[d].ptr) && Chain(s1.blocks[k], 0, p)
    ensures Chain(s1.blocks[k], p + RecLen(s1.blocks[k], p), BLOCK_SIZE)
    ensures f in Slack(s1.blocks[k], p) && Matches(s1, k, f, name)
    ensures RestoreDirEntry(s1, d, name) == ScanAt(s1, k, p, name)
  {
    RmSiteBlock(s, d, name, k, p, f);
    RmSiteAfter(s.blocks[k], p, f);
    RestoreSite(s, s1, d, name, k, p, f);
  }

  lemma NeedsLast(s: State, s1: State, d: nat, name: Name, k: nat, p: nat, f: nat, n: nat)
    requires Shaped(s) && k < |s.blocks| && RecOk(s.blocks[k], p) && f == p + RecLen(s.blocks[k], p)
    requires RecOk(s.blocks[k], f) && FileType(s.blocks[k], f) != FT_DIR
    requires Used(s, n) && Ino(s.blocks[k], f) == n + 1 && 0 < s.inodes[n].links < 0x1_0000
    requires s1 == DropLink(SetBlock(s, k, Unlink(s.blocks[k], p)), n) && Shaped(s1) && k < |s1.blocks|
    requires d < |s1.inodes| && NoOtherMatch(s1, d, name, k, f)
    requires RecOk(s1.blocks[k], p) && k in Direct(s1.inodes[d].ptr) && Chain(s1.blocks[k], 0, p)
    requires Chain(s1.blocks[k], p + RecLen(s1.blocks[k], p), BLOCK_SIZE)
    requires f in Slack(s1.blocks[k], p) && Matches(s1, k, f, name)
    requires ScanAt(s1, k, p, name) == Scan(s, true, false)
    ensures Undoable(s, k, p, n)
  {
    if s.inodes[n].links > 1 { LinkedNoMatch(s, k, p, f, n, name); }
    LastLink(s, k, p, f, n);
    var i := OnlyMatchAt(s1, Direct(s1.inodes[d].ptr), name, k, p, f);
    ScanNeeds(s, s1, k, p, f, n, name, i);
  }

  lemma RestoreNeeds(s: State, s1: State, d: nat, name: Name, k: nat, p: nat, f: nat, n: nat)
    requires Inv(s) && CanRemove(s, d, name) && RmSite(s, d, name, k, p, f) && s1 == RmDirEntry(s, d, name).0
    requires k < |s.blocks| && f + HEADER <= BLOCK_SIZE && FileType(s.blocks[k], f) != FT_DIR
    requires n < |s.inodes| && Ino(s.blocks[k], f) == n + 1 && p + HEADER <= BLOCK_SIZE
    requires NoOtherMatch(s1, d, name, k, f) && RestoreDirEntry(s1, d, name) == Scan(s, true, false)
    ensures Undoable(s, k, p, n)
  {
    RmFacts(s, s1, d, name, k, p, f, n);
    NeedsSite(s, s1, d, name, k, p, f);
    NeedsLast(s, s1, d, name, k, p, f, n);
  }
}

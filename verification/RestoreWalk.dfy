/**
 * The directory walk of ext2_restore goes on over a block whose records its own callback has just
 * relinked.  The block stays a sound chain, so the walk still ends exactly at the end of the block.
 */
module RestoreWalk {
  import opened Bytes
  import opened Records
  import opened DiskState
  import opened Directory
  import opened Restoration
  import opened RestoreProofs

  lemma {:induction false} HiddenFrame(b: Block, b': Block, q: nat, end: nat)
    requires end <= BLOCK_SIZE && Agree(b, b', q, end)
    ensures Hidden(b', q, end) == Hidden(b, q, end)
    decreases end - q
  {
    if q + MIN_SLOT <= end {
      assert Ino(b', q) == Ino(b, q) && NameLen(b', q) == NameLen(b, q);
      if q + MinLen(NameLen(b, q)) <= end { HiddenFrame(b, b', q + MinLen(NameLen(b, q)), end); }
    }
  }

  lemma {:induction false} HiddenOkFrame(s: State, s': State, b: Block, b': Block, q: nat, end: nat)
    requires end <= BLOCK_SIZE && Agree(b, b', q, end) && HiddenOk(s, b, q, end) && |s'.inodes| == |s.inodes|
    requires forall n :: 0 <= n < |s.inodes| ==> s'.inodes[n].ptr == s.inodes[n].ptr
    ensures HiddenOk(s', b', q, end)
    decreases end - q
  {
    if q + MIN_SLOT <= end {
      assert Ino(b', q) == Ino(b, q) && NameLen(b', q) == NameLen(b, q);
      if Ino(b, q) != 0 { HiddenOkFrame(s, s', b, b', q + MinLen(NameLen(b, q)), end); }
    }
  }

  /** Record `c`, live itself or hidden behind the live record `r`, has its slack end where `r` ends. */
  ghost predicate Within(b: Block, r: nat, c: nat, end: nat) {
    && Chain(b, 0, r) && RecOk(b, r) && r + RecLen(b, r) == end && Chain(b, end, BLOCK_SIZE)
    && (c == r || r + MinLen(NameLen(b, r)) <= c)
  }

  lemma WithinOk(b: Block, r: nat, c: nat, end: nat)
    requires Within(b, r, c, end)
    ensures BlockOk(b)
  {
    BlockAt(b, r, At(b, r));
  }

  /** The live record gives its slack to the one behind it, which is live now. */
  lemma RelinkLiveSound(b: Block, b': Block, r: nat, q: nat, end: nat)
    requires Within(b, r, r, end) && q == r + MinLen(NameLen(b, r)) && q + MIN_SLOT <= end
    requires q + MinLen(NameLen(b, q)) <= end <= BLOCK_SIZE && b' == Relink(b, r, q, end)
    ensures Within(b', q, q, end)
  {
    RelinkFrame(b, r, q, end);
    ChainFrame(b, b', 0, r);
    ChainFrame(b, b', end, BLOCK_SIZE);
    AtResized(b, b', r);
    ChainCons(b', r, At(b', r), q);
    ChainAppend(b', 0, r, q);
  }

  /** A hidden record gives its slack to the one behind it; nothing live is touched. */
  lemma RelinkHiddenSound(b: Block, b': Block, r: nat, c: nat, q: nat, end: nat)
    requires Within(b, r, c, end) && c > r && c + HEADER <= q && q + MIN_SLOT <= end <= BLOCK_SIZE
    requires b' == Relink(b, c, q, end)
    ensures Within(b', r, q, end)
  {
    RelinkFrame(b, c, q, end);
    ChainFrame(b, b', 0, r);
    ChainFrame(b, b', end, BLOCK_SIZE);
    AtFrame(b, b', r);
  }

  /** What a revival does to the block and the inodes. */
  lemma ReviveFrame(s: State, k: nat, c: nat, q: nat, end: nat)
    requires k < |s.blocks| && c + HEADER <= q && q + MIN_SLOT <= end <= BLOCK_SIZE
    requires 0 < Ino(s.blocks[k], q) <= |s.inodes| == |s.inodeBits|
    ensures var r := Revive(s, k, c, q, end);
            && |r.inodes| == |s.inodes| == |r.inodeBits| && |r.blocks| == |s.blocks|
            && (forall n :: 0 <= n < |s.inodes| ==>
                  r.inodes[n].ptr == s.inodes[n].ptr && r.inodes[n].mode == s.inodes[n].mode)
            && (forall j :: 0 <= j < |s.blocks| && j != k ==> r.blocks[j] == s.blocks[j])
            && r.blocks[k] == Relink(s.blocks[k], c, q, end)
            && Agree(s.blocks[k], r.blocks[k], 0, c + 4) && Agree(s.blocks[k], r.blocks[k], q + 6, BLOCK_SIZE)
  {
    RelinkFrame(s.blocks[k], c, q, end);
  }

  /** Between `s` and `s'` only block `k` and parts of inodes that walks do not look at changed. */
  ghost predicate WalksAlike(s: State, s': State, k: nat) {
    && |s'.inodes| == |s.inodes| && |s'.inodeBits| == |s.inodeBits| && |s'.blocks| == |s.blocks|
    && (forall n :: 0 <= n < |s.inodes| ==>
          s'.inodes[n].ptr == s.inodes[n].ptr && s'.inodes[n].mode == s.inodes[n].mode)
    && (forall j :: 0 <= j < |s.blocks| && j != k ==> s'.blocks[j] == s.blocks[j])
  }

  lemma RelinkSound(b: Block, b': Block, r: nat, c: nat, q: nat, end: nat, o: nat) returns (r': nat)
    requires c + HEADER <= BLOCK_SIZE && Within(b, r, c, end) && q == c + MinLen(NameLen(b, c))
    requires q + MIN_SLOT <= end <= BLOCK_SIZE && q + MinLen(NameLen(b, q)) <= end
    requires b' == Relink(b, c, q, end) && Chain(b, 0, o) && o <= r
    ensures Within(b', r', q, end) && Chain(b', 0, o) && r <= r' == if c == r then q else r
  {
    RelinkFrame(b, c, q, end);
    ChainFrame(b, b', 0, o);
    if c == r {
      r' := q;
      RelinkLiveSound(b, b', r, q, end);
    } else {
      r' := r;
      RelinkHiddenSound(b, b', r, c, q, end);
    }
  }

  lemma SlackStep(s: State, k: nat, c: nat, q: nat, end: nat, r: nat, o: nat) returns (r': nat)
    requires k < |s.blocks| && c + HEADER <= q && q + MIN_SLOT <= end <= BLOCK_SIZE
    requires 0 < Ino(s.blocks[k], q) <= |s.inodes| == |s.inodeBits|
    requires Within(s.blocks[k], r, c, end) && Chain(s.blocks[k], 0, o) && o <= r
    requires q == c + MinLen(NameLen(s.blocks[k], c)) && q + MinLen(NameLen(s.blocks[k], q)) <= end
    ensures var b, s1 := s.blocks[k], Revive(s, k, c, q, end); var b' := s1.blocks[k];
            && WalksAlike(s, s1, k) && Within(b', r', q, end) && Chain(b', 0, o) && r <= r' == (if c == r then q else r)
            && NameLen(b', q) == NameLen(b, q)
            && Hidden(b', q + MinLen(NameLen(b, q)), end) == Hidden(b, q + MinLen(NameLen(b, q)), end)
  {
    var b, b' := s.blocks[k], Revive(s, k, c, q, end).blocks[k];
    ReviveFrame(s, k, c, q, end);
    r' := RelinkSound(b, b', r, c, q, end, o);
    HiddenFrame(b, b', q + MinLen(NameLen(b, q)), end);
  }

  /** And block `k` is a chain on which offset `o` lies. */
  ghost predicate SoundAfter(s: State, s': State, k: nat, o: nat) {
    k < |s.blocks| && WalksAlike(s, s', k) && BlockOk(s'.blocks[k]) && Chain(s'.blocks[k], 0, o)
  }

  lemma SoundTrans(s: State, s1: State, s': State, k: nat, o: nat)
    requires WalksAlike(s, s1, k) && SoundAfter(s1, s', k, o)
    ensures SoundAfter(s, s', k, o)
  {
  }

  lemma HiddenHead(b: Block, q: nat, end: nat)
    requires end <= BLOCK_SIZE && Hidden(b, q, end) != []
    ensures q + MIN_SLOT <= end && Ino(b, q) != 0 && q + MinLen(NameLen(b, q)) <= end
    ensures Hidden(b, q, end)[0] == q && Hidden(b, q, end)[1..] == Hidden(b, q + MinLen(NameLen(b, q)), end)
  {
  }

  /**
   * The pass is at `c`, in the slack of the live record `r`, with the records `hs` to look at; the walk
   * is at offset `o`.
   */
  ghost predicate SoundPass(s: State, k: nat, r: nat, c: nat, hs: seq<nat>, end: nat, o: nat) {
    && RestOk(s, k, c, end) && Within(s.blocks[k], r, c, end) && Chain(s.blocks[k], 0, o) && o <= r
    && hs == Hidden(s.blocks[k], c + MinLen(NameLen(s.blocks[k], c)), end)
  }

  lemma SoundHead(s: State, k: nat, r: nat, c: nat, hs: seq<nat>, end: nat, o: nat)
    requires SoundPass(s, k, r, c, hs, end, o)
    ensures Ascending(c, hs, end) && BlockOk(s.blocks[k])
    ensures hs != [] ==> SoundPass(s, k, r, hs[0], hs[1..], end, o)
  {
    var q := c + MinLen(NameLen(s.blocks[k], c));
    HiddenAscending(s.blocks[k], c, q, end);
    WithinOk(s.blocks[k], r, c, end);
    if hs != [] {
      HiddenHead(s.blocks[k], q, end);
      RestNext(s, k, c, q, end);
    }
  }

  lemma RestNext(s: State, k: nat, c: nat, q: nat, end: nat)
    requires RestOk(s, k, c, end) && q == c + MinLen(NameLen(s.blocks[k], c)) && q + MIN_SLOT <= end
    requires Ino(s.blocks[k], q) != 0
    ensures RestOk(s, k, q, end)
  {
  }

  /** A revival in the pass, which then goes on from the record revived. */
  lemma SoundStep(s: State, k: nat, r: nat, c: nat, hs: seq<nat>, end: nat, o: nat, name: Name)
    returns (r': nat, s1: State)
    requires SoundPass(s, k, r, c, hs, end, o) && hs != []
    requires hs[0] + HEADER <= BLOCK_SIZE && Candidate(s, k, hs[0], name) && FileType(s.blocks[k], hs[0]) != FT_DIR
    ensures c + HEADER <= hs[0] && hs[0] + MIN_SLOT <= end && s1 == Revive(s, k, c, hs[0], end)
    ensures WalksAlike(s, s1, k) && SoundPass(s1, k, r', hs[0], hs[1..], end, o)
  {
    var q := hs[0];
    HiddenHead(s.blocks[k], c + MinLen(NameLen(s.blocks[k], c)), end);
    r' := SlackStep(s, k, c, q, end, r, o);
    s1 := RestStays(s, k, c, q, end);
  }

  /**
   * Whatever a pass over the slack behind `c` relinks, the block is still a chain, the live record
   * the walk is at still lies on it, and the other blocks are as they were.
   */
  lemma {:induction false} ScanSlackSound(s: State, k: nat, c: nat, hs: seq<nat>, end: nat, name: Name, done: bool,
                                          r: nat, o: nat)
    requires SoundPass(s, k, r, c, hs, end, o)
    ensures Ascending(c, hs, end)
    ensures SoundAfter(s, ScanSlack(s, k, c, hs, end, name, done).s, k, o)
    decreases |hs|
  {
    SoundHead(s, k, r, c, hs, end, o);
    if hs != [] {
      if !Candidate(s, k, hs[0], name) {
        ScanSlackSound(s, k, hs[0], hs[1..], end, name, done, r, o);
      } else if FileType(s.blocks[k], hs[0]) != FT_DIR {
        var r', s1 := SoundStep(s, k, r, c, hs, end, o, name);
        ScanSlackSound(s1, k, hs[0], hs[1..], end, name, true, r', o);
        SoundTrans(s, s1, ScanSlack(s1, k, hs[0], hs[1..], end, name, true).s, k, o);
      }
    }
  }

  /** One record of the walk: afterwards the block is sound and the walk can step on from it. */
  lemma SlackSound(s: State, k: nat, o: nat, name: Name)
    requires k < |s.blocks| && |s.inodes| == |s.inodeBits| && Chain(s.blocks[k], 0, o)
    requires RecOk(s.blocks[k], o) && Chain(s.blocks[k], o + RecLen(s.blocks[k], o), BLOCK_SIZE)
    requires RestOk(s, k, o, o + RecLen(s.blocks[k], o))
    ensures var s' := ScanSlack(s, k, o, Slack(s.blocks[k], o), o + RecLen(s.blocks[k], o), name, false).s;
            && WalksAlike(s, s', k) && BlockOk(s'.blocks[k])
            && Chain(s'.blocks[k], 0, o) && Chain(s'.blocks[k], o, BLOCK_SIZE)
  {
    var b := s.blocks[k];
    ScanSlackSound(s, k, o, Slack(b, o), o + RecLen(b, o), name, false, o, o);
    var s' := ScanSlack(s, k, o, Slack(b, o), o + RecLen(b, o), name, false).s;
    ChainRest(s'.blocks[k], 0, o, BLOCK_SIZE);
  }

  // ---------- the pass, one hidden record at a time ----------

  /** The rest of a pass that has come to record `c`. */
  ghost function Rest(s: State, k: nat, c: nat, end: nat, name: Name, done: bool): Scan
    requires k < |s.blocks| && |s.inodes| == |s.inodeBits| && c + HEADER <= BLOCK_SIZE && end <= BLOCK_SIZE
  {
    var q := c + MinLen(NameLen(s.blocks[k], c));
    HiddenAscending(s.blocks[k], c, q, end);
    ScanSlack(s, k, c, Hidden(s.blocks[k], q, end), end, name, done)
  }

  /** Where the pass is: at record `c` with `padding` bytes behind it to look into, or over. */
  ghost predicate PassLeft(all: Scan, s: State, k: nat, c: nat, size: nat, padding: nat, end: nat, name: Name,
                           done: bool, over: bool)
  {
    if over then padding == 0 && all == Scan(s, done, false)
    else RestOk(s, k, c, end) && all == Rest(s, k, c, end, name, done)
         && size == MinLen(NameLen(s.blocks[k], c)) && c + size + padding == end
  }

  lemma RestEnds(s: State, k: nat, c: nat, end: nat, name: Name, done: bool)
    requires RestOk(s, k, c, end)
    requires var q := c + MinLen(NameLen(s.blocks[k], c)); q + MIN_SLOT > end || Ino(s.blocks[k], q) == 0
    ensures Rest(s, k, c, end, name, done) == Scan(s, done, false)
  {
  }

  lemma RestGoesOn(s: State, k: nat, c: nat, q: nat, end: nat, name: Name, done: bool)
    requires RestOk(s, k, c, end) && q == c + MinLen(NameLen(s.blocks[k], c)) && q + MIN_SLOT <= end
    requires Ino(s.blocks[k], q) != 0
    ensures Ino(s.blocks[k], q) <= |s.inodes| && q + MinLen(NameLen(s.blocks[k], q)) <= end && RestOk(s, k, q, end)
    ensures !Candidate(s, k, q, name) ==> Rest(s, k, c, end, name, done) == Rest(s, k, q, end, name, done)
    ensures Candidate(s, k, q, name) && FileType(s.blocks[k], q) == FT_DIR ==>
              Rest(s, k, c, end, name, done) == Scan(s, done, true)
  {
    var hs := Hidden(s.blocks[k], q, end);
    assert hs[0] == q && hs[1..] == Hidden(s.blocks[k], q + MinLen(NameLen(s.blocks[k], q)), end);
  }

  /** A revival leaves the rest of the slack readable. */
  lemma RestStays(s: State, k: nat, c: nat, q: nat, end: nat) returns (s1: State)
    requires RestOk(s, k, c, end) && q == c + MinLen(NameLen(s.blocks[k], c)) && q + MIN_SLOT <= end
    requires Ino(s.blocks[k], q) != 0
    ensures 0 < Ino(s.blocks[k], q) <= |s.inodes| == |s.inodeBits| && s1 == Revive(s, k, c, q, end)
    ensures q + MinLen(NameLen(s.blocks[k], q)) <= end
    ensures Agree(s.blocks[k], s1.blocks[k], q + 6, BLOCK_SIZE) && NameLen(s1.blocks[k], q) == NameLen(s.blocks[k], q)
    ensures RestOk(s1, k, q, end) && WalksAlike(s, s1, k)
  {
    var b, after := s.blocks[k], q + MinLen(NameLen(s.blocks[k], q));
    s1 := Revive(s, k, c, q, end);
    ReviveFrame(s, k, c, q, end);
    HiddenOkFrame(s, s1, b, s1.blocks[k], after, end);
  }

  lemma RestTakes(s: State, k: nat, c: nat, q: nat, end: nat, name: Name, done: bool)
    requires RestOk(s, k, c, end) && q == c + MinLen(NameLen(s.blocks[k], c)) && q + MIN_SLOT <= end
    requires Ino(s.blocks[k], q) != 0
    requires Candidate(s, k, q, name) && FileType(s.blocks[k], q) != FT_DIR
    ensures Ino(s.blocks[k], q) <= |s.inodes|
    ensures var s1 := Revive(s, k, c, q, end);
            && RestOk(s1, k, q, end) && Rest(s, k, c, end, name, done) == Rest(s1, k, q, end, name, true)
            && WalksAlike(s, s1, k) && NameLen(s1.blocks[k], q) == NameLen(s.blocks[k], q)
  {
    var s1 := RestStays(s, k, c, q, end);
    HiddenHead(s.blocks[k], q, end);
    HiddenFrame(s.blocks[k], s1.blocks[k], q + MinLen(NameLen(s.blocks[k], q)), end);
  }

  // ---------- the walk over a block ----------

  /** The live record the walk is at, and its slack. */
  lemma SlackHere(s: State, k: nat, o: nat)
    requires Shaped(s) && SlacksOk(s, k) && o < BLOCK_SIZE
    requires Chain(s.blocks[k], 0, o) && Chain(s.blocks[k], o, BLOCK_SIZE)
    ensures RecOk(s.blocks[k], o) && RestOk(s, k, o, o + RecLen(s.blocks[k], o))
  {
  }

  /** The walk can step on from it after the callback. */
  lemma RecordStays(s: State, s': State, k: nat, o: nat, name: Name, done: bool, stopped: bool)
    requires Shaped(s) && SlacksOk(s, k) && o < BLOCK_SIZE && RecOk(s.blocks[k], o)
    requires Chain(s.blocks[k], 0, o) && Chain(s.blocks[k], o, BLOCK_SIZE)
    requires Scan(s', done, stopped) == Rest(s, k, o, o + RecLen(s.blocks[k], o), name, false)
    ensures k < |s'.blocks| && RecOk(s'.blocks[k], o)
  {
    ScanChainStep(s, k, o, name);
  }

  /** One step of the walk while nothing has been restored. */
  lemma ScanChainStep(s: State, k: nat, o: nat, name: Name)
    requires SlacksOk(s, k) && Shaped(s) && o < BLOCK_SIZE
    requires Chain(s.blocks[k], 0, o) && Chain(s.blocks[k], o, BLOCK_SIZE)
    ensures RecOk(s.blocks[k], o) && RestOk(s, k, o, o + RecLen(s.blocks[k], o))
    ensures var r := Rest(s, k, o, o + RecLen(s.blocks[k], o), name, false);
            && ScanChain(s, k, o, name)
                == (if r.done || r.stopped then r else ScanChain(s, k, o + RecLen(s.blocks[k], o), name))
            && (!r.done ==> r.s == s)
            && SoundAfter(s, r.s, k, o) && Chain(r.s.blocks[k], o, BLOCK_SIZE)
  {
    RestTried(s, k, o, name);
    SlackSound(s, k, o, name);
  }

  lemma RestTried(s: State, k: nat, o: nat, name: Name)
    requires |s.inodes| == |s.inodeBits| && k < |s.blocks| && o < BLOCK_SIZE && Chain(s.blocks[k], o, BLOCK_SIZE)
    ensures var r := Rest(s, k, o, o + RecLen(s.blocks[k], o), name, false);
            && ScanChain(s, k, o, name)
                == (if r.done || r.stopped then r else ScanChain(s, k, o + RecLen(s.blocks[k], o), name))
            && (!r.done ==> r.s == s)
  {
    ScanSlackEffect(s, k, o, Slack(s.blocks[k], o), o + RecLen(s.blocks[k], o), name);
  }

  lemma ChainSteps(b: Block, o: nat)
    requires Chain(b, 0, o) && Chain(b, o, BLOCK_SIZE) && o < BLOCK_SIZE
    ensures RecOk(b, o) && Chain(b, 0, o + RecLen(b, o)) && Chain(b, o + RecLen(b, o), BLOCK_SIZE)
  {
    ChainCons(b, o, At(b, o), o + At(b, o).len);
    ChainAppend(b, 0, o, o + At(b, o).len);
  }

  lemma ChainJoins(b: Block, o: nat)
    requires Chain(b, 0, o) && Chain(b, o, BLOCK_SIZE)
    ensures BlockOk(b)
  {
    ChainAppend(b, 0, o, BLOCK_SIZE);
  }

  /** The walk over block `k` has come to `total`; `was` tells whether a record was restored before it. */
  ghost predicate Walked(s: State, s': State, k: nat, total: nat, name: Name, was: bool, done: bool) {
    && Shaped(s) && k < |s.blocks| && BlockOk(s.blocks[k]) && WalksAlike(s, s', k)
    && total <= BLOCK_SIZE && Chain(s'.blocks[k], 0, total) && Chain(s'.blocks[k], total, BLOCK_SIZE)
    && if was then done && s' == s
       else if done then ScanChain(s, k, 0, name) == Scan(s', true, false)
       else s' == s && ScanChain(s, k, 0, name) == ScanChain(s, k, total, name)
  }

  lemma WalkStarts(s: State, k: nat, name: Name, was: bool)
    requires Shaped(s) && k < |s.blocks| && BlockOk(s.blocks[k])
    ensures Walked(s, s, k, 0, name, was, was)
  {
  }

  /** Once a record is restored the walk only steps on. */
  lemma WalkSteps(s: State, s': State, k: nat, total: nat, name: Name, was: bool, next: nat)
    requires Walked(s, s', k, total, name, was, true) && total < BLOCK_SIZE
    ensures RecOk(s'.blocks[k], total)
    ensures next == total + RecLen(s'.blocks[k], total) ==> Walked(s, s', k, next, name, was, true)
  {
    ChainSteps(s'.blocks[k], total);
  }

  /** Until then every live record is tried, and the walk steps on from where the callback left it. */
  lemma WalkTries(s: State, s': State, k: nat, total: nat, name: Name, done: bool, stopped: bool, next: nat)
    requires Walked(s, s, k, total, name, false, false) && total < BLOCK_SIZE && SlacksOk(s, k)
    requires RecOk(s.blocks[k], total)
    requires Scan(s', done, stopped) == Rest(s, k, total, total + RecLen(s.blocks[k], total), name, false)
    ensures stopped ==>
              Scan(s', done, true) == ScanChain(s, k, 0, name) && WalksAlike(s, s', k) && BlockOk(s'.blocks[k])
    ensures !stopped ==>
              && WalksAlike(s, s', k) && RecOk(s'.blocks[k], total)
              && (next == total + RecLen(s'.blocks[k], total) ==> Walked(s, s', k, next, name, false, done))
  {
    ScanChainStep(s, k, total, name);
    ChainSteps(s'.blocks[k], total);
  }

  /** The walk over the blocks `ps` of a directory has come to the one at `i`. */
  ghost predicate WalkedBlocks(s: State, s': State, ps: seq<nat>, i: nat, name: Name, done: bool) {
    && Shaped(s) && BlocksOk(s.blocks, ps) && BlocksOk(s'.blocks, ps) && i <= |ps|
    && |s'.inodes| == |s.inodes| && (forall n :: 0 <= n < |s.inodes| ==> s'.inodes[n].ptr == s.inodes[n].ptr)
    && if done then ScanBlocks(s, ps, name) == Scan(s', true, false)
       else s' == s && ScanBlocks(s, ps, name) == ScanBlocks(s, ps[i..], name)
  }

  lemma WalkNextBlock(s: State, t: State, t': State, ps: seq<nat>, i: nat, name: Name, was: bool, done: bool,
                      stopped: bool)
    requires WalkedBlocks(s, t, ps, i, name, was) && i < |ps|
    requires WalksAlike(t, t', ps[i]) && BlockOk(t'.blocks[ps[i]])
    requires |t.inodes| == |t.inodeBits|
    requires Scan(t', done, stopped) == if was then Scan(t, true, false) else ScanChain(t, ps[i], 0, name)
    ensures stopped ==> ScanBlocks(s, ps, name) == Scan(t', done, true)
    ensures !stopped ==> WalkedBlocks(s, t', ps, i + 1, name, done)
  {
    assert ps[i..][0] == ps[i] && ps[i..][1..] == ps[i + 1..];
    if !was && !done && !stopped { ScanChainEffect(s, ps[i], 0, name); }
  }

  lemma WalkBlocksStart(s: State, ps: seq<nat>, name: Name)
    requires Shaped(s) && BlocksOk(s.blocks, ps)
    ensures WalkedBlocks(s, s, ps, 0, name, false)
  {
    assert ps[0..] == ps;
  }

  lemma WalkBlocksEnd(s: State, s': State, ps: seq<nat>, name: Name, done: bool)
    requires WalkedBlocks(s, s', ps, |ps|, name, done)
    ensures ScanBlocks(s, ps, name) == Scan(s', done, false)
  {
  }
}

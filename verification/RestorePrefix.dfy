/** Which restores leave every link held by a live record: those that revive a prefix of the slack. */
module RestorePrefix {
  import opened Options
  import opened Bytes
  import opened Records
  import opened DiskState
  import opened Directory
  import opened Invariant
  import opened Restoration
  import opened RestoreProofs
  import opened RestoreTree
  import opened RestoreWalk
  import opened RestoreSafe

  /** For each record of the slack whether the pass revives it.  Each revival can change what matches next. */
  ghost function Revived(s: State, k: nat, o: nat, hs: seq<nat>, end: nat, name: Name): (bs: seq<bool>)
    requires k < |s.blocks| && |s.inodes| == |s.inodeBits| && Ascending(o, hs, end)
    ensures |bs| == |hs|
    decreases |hs|
  {
    if hs == [] then []
    else if !Candidate(s, k, hs[0], name) then [false] + Revived(s, k, hs[0], hs[1..], end, name)
    else if FileType(s.blocks[k], hs[0]) == FT_DIR then seq(|hs|, _ => false)
    else [true] + Revived(Revive(s, k, o, hs[0], end), k, hs[0], hs[1..], end, name)
  }

  /** No record is revived behind one that is not. */
  ghost predicate IsPrefix(bs: seq<bool>) { forall i, j :: 0 <= i < j < |bs| && bs[j] ==> bs[i] }

  lemma PrefixTail(b: bool, bs: seq<bool>)
    ensures IsPrefix([b] + bs) <==> if b then IsPrefix(bs) else true !in bs
  {
    var all := [b] + bs;
    assert forall i :: 0 <= i < |bs| ==> all[i + 1] == bs[i];
    assert forall i :: 0 < i < |all| ==> all[i] == bs[i - 1];
    if b && IsPrefix(bs) { assert IsPrefix(all); }
    if !b && true in bs {
      var j :| 0 <= j < |bs| && bs[j];
      assert all[j + 1] && !all[0];
    }
  }

  /** A link that no record holds. */
  ghost predicate Lost(s: State, n: nat) { Used(s, n) && s.inodes[n].links > Total(s, n + 1) }

  lemma LostNotExact(s: State, n: nat)
    requires Lost(s, n) && n < |s.inodeBits|
    ensures !TreeOk(s)
  {
    assert !InodeSound(s, n);
  }

  lemma ExactSafe(s: State)
    requires Inv(s)
    ensures Inv(s, false)
  {
    forall n | 0 <= n < |s.inodes| ensures InodeSound(s, n, false) { assert InodeSound(s, n); }
  }

  lemma SameTotals(s: State, t: State, s': State, k: nat, n: nat, b': Block)
    requires Inv(s, false) && ComesIntoUse(s, t, n) && TreeOk(t, false) && Relinks(t, s', k, n, b') && BlockOk(b')
    requires BlockOk(t.blocks[k]) ==> Live(b') == Live(t.blocks[k])
    ensures forall ino: nat :: Total(s', ino) == Total(s, ino)
  {
    DeeperSame(t, s', k, n, b', false);
    forall d: nat, ino: nat ensures DirCount(s', d, ino) == DirCount(s, d, ino) {
      if UsedDir(t, d) { UsedDirs(s, t, n, d, false); }
    }
    forall ino: nat ensures Total(s', ino) == Total(s, ino) { TotalShift(s, s', |s.inodes|, ino, 0, 0); }
  }

  lemma HiddenStays(b: Block, r: nat, c: nat, q: nat, end: nat)
    requires Within(b, r, c, end) && c != r && c + HEADER <= q && q + MIN_SLOT <= end <= BLOCK_SIZE
    ensures BlockOk(b) && BlockOk(Relink(b, c, q, end)) && Live(Relink(b, c, q, end)) == Live(b)
  {
    WithinOk(b, r, c, end);
    RelinkHidden(b, r, c, q);
  }

  /** Reviving a record behind a hidden one loses a link, and finds none again. */
  lemma HiddenRevival(s: State, d: nat, j: nat, k: nat, r: nat, c: nat, q: nat, end: nat, name: Name) returns (n: nat)
    requires AtRecord(s, d, j, k, r, c, end) && TakesNext(s, k, c, q, end, name) && c != r
    ensures Lost(Revive(s, k, c, q, end), n)
    ensures forall m: nat :: Lost(s, m) ==> Lost(Revive(s, k, c, q, end), m)
  {
    var s', b' := Revive(s, k, c, q, end), Relink(s.blocks[k], c, q, end);
    HiddenStays(s.blocks[k], r, c, q, end);
    n := Ino(s.blocks[k], q) - 1;
    assert InodeSound(s, n, false);
    TakenIntoUse(s, n);
    TakenTree(s, n, false);
    ReviveRelinks(s, k, c, q, end);
    LosesLink(s, Taken(s, n), s', k, n, b');
  }

  lemma LosesLink(s: State, t: State, s': State, k: nat, n: nat, b': Block)
    requires Inv(s, false) && ComesIntoUse(s, t, n) && TreeOk(t, false) && Relinks(t, s', k, n, b') && BlockOk(b')
    requires BlockOk(t.blocks[k]) ==> Live(b') == Live(t.blocks[k])
    ensures Lost(s', n)
    ensures forall m: nat :: Lost(s, m) ==> Lost(s', m)
  {
    UnnamedFree(s, n, false);
    SameTotals(s, t, s', k, n, b');
  }

  lemma TakenIntoUse(s: State, n: nat)
    requires Inv(s, false) && n < |s.inodes| && !Used(s, n)
    ensures ComesIntoUse(s, Taken(s, n), n)
  {
    assert InodeSound(s, n, false);
  }

  /** A lost link stays lost. */
  lemma {:induction false} HiddenLost(s: State, d: nat, j: nat, k: nat, r: nat, c: nat, hs: seq<nat>, end: nat,
                                      name: Name, done: bool, m: nat)
    requires AtPass(s, d, j, k, r, c, hs, end) && c != r && Lost(s, m)
    ensures Ascending(c, hs, end) && Lost(ScanSlack(s, k, c, hs, end, name, done).s, m)
    decreases |hs|
  {
    PassHead(s, d, j, k, r, c, hs, end, name);
    if hs != [] {
      if !Candidate(s, k, hs[0], name) {
        HiddenLost(s, d, j, k, r, hs[0], hs[1..], end, name, done, m);
      } else if FileType(s.blocks[k], hs[0]) != FT_DIR {
        var n := HiddenRevival(s, d, j, k, r, c, hs[0], end, name);
        var r', s1 := ReviveStep(s, d, j, k, r, c, hs, end, name);
        HiddenLost(s1, d, j, k, r', hs[0], hs[1..], end, name, true, m);
      }
    }
  }

  /** Behind a hidden record any revival loses a link. */
  lemma {:induction false} HiddenPass(s: State, d: nat, j: nat, k: nat, r: nat, c: nat, hs: seq<nat>, end: nat,
                                      name: Name, done: bool) returns (n: nat)
    requires AtPass(s, d, j, k, r, c, hs, end) && c != r
    ensures Ascending(c, hs, end)
    ensures true !in Revived(s, k, c, hs, end, name) ==> ScanSlack(s, k, c, hs, end, name, done).s == s
    ensures true in Revived(s, k, c, hs, end, name) ==> Lost(ScanSlack(s, k, c, hs, end, name, done).s, n)
    decreases |hs|
  {
    PassHead(s, d, j, k, r, c, hs, end, name);
    n := 0;
    if hs != [] {
      if !Candidate(s, k, hs[0], name) {
        n := HiddenPass(s, d, j, k, r, hs[0], hs[1..], end, name, done);
      } else if FileType(s.blocks[k], hs[0]) != FT_DIR {
        n := HiddenRevival(s, d, j, k, r, c, hs[0], end, name);
        var r', s1 := ReviveStep(s, d, j, k, r, c, hs, end, name);
        HiddenLost(s1, d, j, k, r', hs[0], hs[1..], end, name, true, n);
        assert Revived(s, k, c, hs, end, name)[0];
      }
    }
  }

  lemma Skipped(s: State, d: nat, j: nat, k: nat, r: nat, c: nat, hs: seq<nat>, end: nat, name: Name, done: bool)
    requires AtPass(s, d, j, k, r, c, hs, end) && c != r && Inv(s)
    ensures Ascending(c, hs, end)
    ensures TreeOk(ScanSlack(s, k, c, hs, end, name, done).s) <==> true !in Revived(s, k, c, hs, end, name)
  {
    var n := HiddenPass(s, d, j, k, r, c, hs, end, name, done);
    var s' := ScanSlackSafe(s, d, j, k, r, c, hs, end, name, done);
    if true in Revived(s, k, c, hs, end, name) { LostNotExact(s', n); }
  }

  /** Behind a live record: link counts stay right as long as each record follows the last one revived. */
  lemma {:induction false} LivePass(s: State, d: nat, j: nat, k: nat, r: nat, hs: seq<nat>, end: nat, name: Name,
                                    done: bool)
    requires AtPass(s, d, j, k, r, r, hs, end) && Inv(s)
    ensures Ascending(r, hs, end)
    ensures TreeOk(ScanSlack(s, k, r, hs, end, name, done).s) <==> IsPrefix(Revived(s, k, r, hs, end, name))
    decreases |hs|
  {
    PassHead(s, d, j, k, r, r, hs, end, name);
    if hs != [] {
      if !Candidate(s, k, hs[0], name) {
        Skipped(s, d, j, k, r, hs[0], hs[1..], end, name, done);
        PrefixTail(false, Revived(s, k, hs[0], hs[1..], end, name));
      } else if FileType(s.blocks[k], hs[0]) != FT_DIR {
        ReviveLive(s, d, j, k, r, hs[0], end, name, true);
        var r', s1 := ReviveStep(s, d, j, k, r, r, hs, end, name);
        LivePass(s1, d, j, k, hs[0], hs[1..], end, name, true);
        PrefixTail(true, Revived(s1, k, hs[0], hs[1..], end, name));
      }
    }
  }

  /** The records that a restore of `name` revives, in the slack where it takes effect, are a prefix of it. */
  ghost predicate RevivesPrefix(s: State, d: nat, name: Name)
    requires Shaped(s) && DirOk(s, d)
  {
    match SiteOf(s, Direct(s.inodes[d].ptr), name)
    case None => true
    case Some((k, o)) =>
      k < |s.blocks| && RecOk(s.blocks[k], o)
      && IsPrefix(Revived(s, k, o, Slack(s.blocks[k], o), o + RecLen(s.blocks[k], o), name))
  }

  lemma AtSite(s: State, d: nat, j: nat, k: nat, o: nat)
    requires Inv(s) && UsedDir(s, d) && j < NumDirect(s.inodes[d].ptr) && s.inodes[d].ptr[j] == k < |s.blocks|
    requires Chain(s.blocks[k], 0, o) && RecOk(s.blocks[k], o)
    requires Chain(s.blocks[k], o + RecLen(s.blocks[k], o), BLOCK_SIZE)
    ensures AtPass(s, d, j, k, o, o, Slack(s.blocks[k], o), o + RecLen(s.blocks[k], o))
  {
    ExactSafe(s);
  }

  lemma SitePass(s: State, d: nat, j: nat, k: nat, o: nat, name: Name, r: Scan)
    requires Inv(s) && UsedDir(s, d) && j < NumDirect(s.inodes[d].ptr) && s.inodes[d].ptr[j] == k < |s.blocks|
    requires Chain(s.blocks[k], 0, o) && RecOk(s.blocks[k], o)
    requires Chain(s.blocks[k], o + RecLen(s.blocks[k], o), BLOCK_SIZE)
    requires r == ScanAt(s, k, o, name)
    ensures TreeOk(r.s)
       <==> IsPrefix(Revived(s, k, o, Slack(s.blocks[k], o), o + RecLen(s.blocks[k], o), name))
  {
    AtSite(s, d, j, k, o);
    LivePass(s, d, j, k, o, Slack(s.blocks[k], o), o + RecLen(s.blocks[k], o), name, false);
  }

  lemma EffectAt(s: State, d: nat, name: Name, k: nat, o: nat) returns (j: nat)
    requires Shaped(s) && UsedDir(s, d) && DirOk(s, d) && DirSlacksOk(s, d)
    requires SiteOf(s, Direct(s.inodes[d].ptr), name) == Some((k, o))
    ensures j < NumDirect(s.inodes[d].ptr) && s.inodes[d].ptr[j] == k < |s.blocks|
    ensures Chain(s.blocks[k], 0, o) && RecOk(s.blocks[k], o)
    ensures Chain(s.blocks[k], o + RecLen(s.blocks[k], o), BLOCK_SIZE)
    ensures RestoreDirEntry(s, d, name) == ScanAt(s, k, o, name)
  {
    j := SiteOfIs(s, Direct(s.inodes[d].ptr), name);
  }

  lemma NoEffect(s: State, d: nat, name: Name)
    requires Shaped(s) && UsedDir(s, d) && DirOk(s, d) && DirSlacksOk(s, d)
    requires SiteOf(s, Direct(s.inodes[d].ptr), name) == None
    ensures RestoreDirEntry(s, d, name).s == s
  {
    var j := SiteOfIs(s, Direct(s.inodes[d].ptr), name);
  }

  lemma RestoreTreeIff(s: State, d: nat, name: Name)
    requires Inv(s) && UsedDir(s, d) && DirOk(s, d) && DirSlacksOk(s, d)
    ensures TreeOk(RestoreDirEntry(s, d, name).s) <==> RevivesPrefix(s, d, name)
  {
    var site := SiteOf(s, Direct(s.inodes[d].ptr), name);
    if site.Some? {
      var j := EffectAt(s, d, name, site.value.0, site.value.1);
      SitePass(s, d, j, site.value.0, site.value.1, name, RestoreDirEntry(s, d, name));
    } else {
      NoEffect(s, d, name);
    }
  }

  /**
   * Link counts after a restore are right if and only if the records it revives form a prefix of the
   * slack, so that each lies directly behind a live one when its turn comes.
   */
  lemma RestoreLinks(s: State, d: nat, name: Name)
    requires Inv(s) && UsedDir(s, d) && DirOk(s, d) && DirSlacksOk(s, d)
    ensures AllocOk(RestoreDirEntry(s, d, name).s)
    ensures TreeOk(RestoreDirEntry(s, d, name).s) <==> RevivesPrefix(s, d, name)
  {
    ReservedAreMarked(s);
    RestoreAlloc(s, d, name);
    RestoreTreeIff(s, d, name);
  }
}

/** Along which runs the names in every directory stay distinct. */
module NameRuns {
  import opened Options
  import opened Bytes
  import opened Records
  import opened DirBlocks
  import opened DiskState
  import opened Directory
  import opened Invariant
  import opened Insertion
  import opened Exactness
  import opened RemovalInv
  import opened Restoration
  import opened RestoreProofs
  import opened RestoreTree
  import opened RestorePrefix
  import opened Writing
  import opened NewInodes
  import opened Paths
  import opened Lookups
  import opened Commands
  import opened PathFacts
  import opened Runs
  import opened CpRm
  import opened Tree
  import opened TreeSteps
  import opened StepExactness
  import opened PathChanges
  import opened TreeRefinement

  /** No two records have the same name, and none is blank. */
  ghost predicate Clean(es: seq<Entry>) { DistinctNames(es) && forall e :: e in es ==> e.ino > 0 }

  /** So it is in every directory. */
  ghost predicate NamesOk(s: State) { forall d: nat :: UsedDir(s, d) ==> DirOk(s, d) && Clean(DirEntries(s, d)) }

  // ---------- one directory ----------

  /** How many records have the name. */
  ghost function Named(es: seq<Entry>, m: Name): nat {
    if es == [] then 0 else (if es[0].name == m then 1 else 0) + Named(es[1..], m)
  }

  lemma {:induction false} NamedConcat(a: seq<Entry>, b: seq<Entry>, m: Name)
    ensures Named(a + b, m) == Named(a, m) + Named(b, m)
  {
    if a == [] {
      assert a + b == b;
    } else {
      NamedConcat(a[1..], b, m);
      assert (a + b)[1..] == a[1..] + b;
    }
  }

  lemma NamedThree(a: seq<Entry>, mid: seq<Entry>, b: seq<Entry>, m: Name)
    ensures Named(a + mid + b, m) == Named(a, m) + Named(mid, m) + Named(b, m)
  {
    NamedConcat(a + mid, b, m);
    NamedConcat(a, mid, m);
  }

  lemma NamedPair(x: Entry, y: Entry, m: Name)
    ensures Named([x, y], m) == (if x.name == m then 1 else 0) + (if y.name == m then 1 else 0)
  {
    assert [x, y][1..] == [y] && [y][1..] == [];
    assert Named([y], m) == if y.name == m then 1 else 0;
  }

  lemma {:induction false} NamedNone(es: seq<Entry>, m: Name)
    ensures Named(es, m) == 0 <==> FindIno(es, m) == None
  {
    if es != [] { NamedNone(es[1..], m); }
  }

  lemma DistinctHead(e: Entry, es: seq<Entry>)
    ensures DistinctNames([e] + es) <==> DistinctNames(es) && FindIno(es, e.name) == None
  {
    var all := [e] + es;
    FindNone(es, e.name);
    assert forall i :: 0 < i < |all| ==> all[i] == es[i - 1];
    if DistinctNames(all) {
      forall i, j | 0 <= i < j < |es| ensures es[i].name != es[j].name { assert all[i + 1].name != all[j + 1].name; }
      forall x | x in es ensures x.name != e.name {
        var i :| 0 <= i < |es| && es[i] == x;
        assert all[0].name != all[i + 1].name;
      }
    }
  }

  ghost predicate OnceEach(es: seq<Entry>) { forall m :: Named(es, m) <= 1 }

  /** Names are distinct if and only if each occurs at most once. */
  lemma {:induction false} DistinctByCount(es: seq<Entry>)
    ensures DistinctNames(es) <==> OnceEach(es)
  {
    if es != [] {
      var e, rest := es[0], es[1..];
      assert es == [e] + rest;
      DistinctByCount(rest);
      DistinctHead(e, rest);
      NamedNone(rest, e.name);
      if OnceEach(es) {
        assert Named(es, e.name) <= 1;
        forall m ensures Named(rest, m) <= 1 { assert Named(es, m) <= 1; }
      }
      if DistinctNames(es) {
        forall m ensures Named(es, m) <= 1 { assert Named(rest, m) <= 1; }
      }
    }
  }

  lemma CountsClean(es: seq<Entry>, es': seq<Entry>, name: Name)
    requires OnceEach(es) && forall m :: Named(es', m) == Named(es, m) + (if m == name then 1 else 0)
    ensures OnceEach(es') <==> Named(es, name) == 0
  {
    if OnceEach(es') { assert Named(es', name) <= 1; }
    if Named(es, name) == 0 {
      forall m ensures Named(es', m) <= 1 { assert Named(es, m) <= 1; }
    }
  }

  /** A record more keeps the directory clean if and only if its name is new. */
  lemma SplitClean(es: seq<Entry>, es': seq<Entry>, a: seq<Entry>, x: Entry, e: Entry, b: seq<Entry>)
    requires SplitInto(es, es', a, x, e, b) && Clean(es) && e.ino > 0
    ensures Clean(es') <==> FindIno(es, e.name) == None
  {
    var x' := x.(len := MinLen(|x.name|));
    forall m ensures Named(es', m) == Named(es, m) + (if m == e.name then 1 else 0) {
      NamedThree(a, [x], b, m);
      NamedThree(a, [x', e], b, m);
      NamedPair(x', e, m);
      assert Named([x], m) == if x.name == m then 1 else 0;
    }
    DistinctByCount(es);
    DistinctByCount(es');
    NamedNone(es, e.name);
    CountsClean(es, es', e.name);
    assert es[|a|] == x;
    forall y | y in es'
      ensures y.ino > 0
    {
      assert y in a || y == x' || y == e || y in b;
      if y in a + b { assert y in es; }
    }
  }

  /** A record less keeps it clean. */
  lemma EditClean(es: seq<Entry>, es': seq<Entry>, a: seq<Entry>, x: Entry, y: Entry, b: seq<Entry>)
    requires Edits(es, es', a, x, y, b) && Clean(es)
    ensures Clean(es') && x.name != y.name
  {
    assert es[|a|] == x && es[|a| + 1] == y;
    var x' := x.(len := x.len + y.len);
    forall m ensures Named(es', m) <= Named(es, m) {
      NamedThree(a, [x, y], b, m);
      NamedThree(a, [x'], b, m);
      NamedPair(x, y, m);
      assert Named([x'], m) == if x.name == m then 1 else 0;
    }
    DistinctByCount(es);
    DistinctByCount(es');
    forall m ensures Named(es', m) <= 1 { assert Named(es, m) <= 1; }
    forall z | z in es' ensures z.ino > 0 { assert z in a || z == x' || z in b; if z in a + b { assert z in es; } }
  }

  // ---------- the primitive steps ----------

  /** Directories kept their records, or are new and have none. */
  lemma SameNames(s: State, s': State)
    requires NamesOk(s)
    requires forall d: nat :: UsedDir(s', d) ==>
               && DirOk(s', d)
               && (DirEntries(s', d) == [] || (UsedDir(s, d) && DirOk(s, d) && DirEntries(s', d) == DirEntries(s, d)))
    ensures NamesOk(s')
  {
  }

  lemma NewInodeNames(s: State, mode: nat, now: nat)
    requires Inv(s) && NamesOk(s)
    ensures NamesOk(NewInodeOf(s, mode, now).0)
  {
    if FreeInodes(s) != {} {
      var n, s' := Least(FreeInodes(s)), NewInodeOf(s, mode, now).0;
      NewInodeFacts(s, mode, now);
      EmptyPointers(s'.inodes[n].ptr);
      forall d: nat | UsedDir(s', d)
        ensures DirOk(s', d) && (DirEntries(s', d) == []
                                 || (UsedDir(s, d) && DirOk(s, d) && DirEntries(s', d) == DirEntries(s, d)))
      {
        if d != n { SameEntries(s, s', d); } else { assert Direct(s'.inodes[n].ptr) == []; }
      }
    }
  }

  lemma CountDirNames(s: State)
    requires NamesOk(s)
    ensures NamesOk(CountDir(s))
  {
    var s' := CountDir(s);
    forall d: nat | UsedDir(s', d)
      ensures DirOk(s', d) && DirEntries(s', d) == DirEntries(s, d)
    {
      SameEntries(s, s', d);
    }
  }

  /** new_dir_entry, where it replaces no block, keeps names distinct if and only if the name is new. */
  lemma InsertNames(s: State, d: nat, child: nat, name: Name, ft: Byte)
    requires Inv(s) && NamesOk(s) && CanLink(s, d, child, name) && DirOk(s, d) && NewDirEntry(s, d, child, name, ft).1
    ensures NamesOk(NewDirEntry(s, d, child, name, ft).0) <==> FindIno(DirEntries(s, d), name) == None
  {
    var s' := NewDirEntry(s, d, child, name, ft).0;
    InsertedClean(s, d, child, name, ft);
    InsertKeepsOthers(s, d, child, name, ft);
    UsedDirsKept(s, d, child, name, ft);
    forall f: nat | UsedDir(s', f) && f != d ensures DirOk(s', f) && Clean(DirEntries(s', f)) {
      assert UsedDir(s, f);
      SameEntries(s, s', f);
    }
    assert UsedDir(s', d);
  }

  lemma InsertedClean(s: State, d: nat, child: nat, name: Name, ft: Byte)
    requires Inv(s) && NamesOk(s) && CanLink(s, d, child, name) && DirOk(s, d) && NewDirEntry(s, d, child, name, ft).1
    ensures var s' := NewDirEntry(s, d, child, name, ft).0;
            DirOk(s', d) && (Clean(DirEntries(s', d)) <==> FindIno(DirEntries(s, d), name) == None)
  {
    assert DirSound(s, d);
    if HasRoom(s, d, |name|) {
      var a, x, e, b := InsertShape(s, d, child, name, ft);
      SplitClean(DirEntries(s, d), DirEntries(NewDirEntry(s, d, child, name, ft).0, d), a, x, e, b);
    } else {
      GrowShape(s, d, child, name, ft);
    }
  }

  lemma WriteNames(s: State, n: nat, src: seq<Byte>)
    requires Inv(s) && NamesOk(s) && Used(s, n) && !IsDir(s.inodes[n].mode)
    ensures NamesOk(WriteString(s, n, src).0)
  {
    var r := WriteString(s, n, src).0;
    WriteKeepsLinks(s, n, src);
    forall d: nat | UsedDir(r, d) ensures DirOk(r, d) && Clean(DirEntries(r, d)) {
      assert UsedDir(s, d);
      UntouchedEntries(s, r, d, n);
    }
  }

  // ---------- the bodies of the commands ----------

  lemma SameFind(s: State, s1: State, d: nat, name: Name)
    requires DirOk(s, d) && d < |s1.inodes| && s1.inodes[d] == s.inodes[d] && s1.blocks == s.blocks
    ensures DirOk(s1, d) && DirEntries(s1, d) == DirEntries(s, d)
  {
    SameEntries(s, s1, d);
  }

  /** cp and ln -s: names stay distinct if the name is new, and only then once there is a record. */
  lemma AddFileNames(s: State, d: nat, name: Name, mode: nat, ft: Byte, src: seq<Byte>, now: nat)
    requires Inv(s) && NamesOk(s) && UsedDir(s, d) && AddReady(s, d, name) && Roomy(s, d, name) && DirOk(s, d)
    requires !IsDir(mode)
    ensures var r := AddFile(s, d, name, mode, ft, src, now);
            && (FindIno(DirEntries(s, d), name) == None ==> NamesOk(r.0))
            && (r.1 && NamesOk(r.0) ==> FindIno(DirEntries(s, d), name) == None)
  {
    if FreeInodes(s) != {} {
      var n, s1 := FreshInode(s, d, mode, now);
      NewInodeNames(s, mode, now);
      SameFind(s, s1, d, name);
      RoomStays(s, s1, d, name);
      assert CanLink(s1, d, n, name);
      NamedFileNames(s1, d, n, name, ft, src);
    }
  }

  lemma NamedFileNames(s: State, d: nat, n: nat, name: Name, ft: Byte, src: seq<Byte>)
    requires Inv(s) && NamesOk(s) && CanLink(s, d, n, name) && DirOk(s, d) && !IsDir(s.inodes[n].mode) && n != d
    ensures var e := NewDirEntry(s, d, n, name, ft); var r := if e.1 then WriteString(e.0, n, src) else e;
            && (FindIno(DirEntries(s, d), name) == None ==> NamesOk(r.0))
            && (r.1 && NamesOk(r.0) ==> FindIno(DirEntries(s, d), name) == None)
  {
    var e := NewDirEntry(s, d, n, name, ft);
    if e.1 {
      InsertInv(s, d, n, name, ft);
      InsertNames(s, d, n, name, ft);
      InsertedClean(s, d, n, name, ft);
      if FindIno(DirEntries(s, d), name) == None {
        WriteNames(e.0, n, src);
      } else {
        WriteKeepsLinks(e.0, n, src);
        assert UsedDir(e.0, d);
        UntouchedEntries(e.0, WriteString(e.0, n, src).0, d, n);
      }
    }
  }

  lemma DotsNames(s: State, n: nat, d: nat)
    requires Inv(s) && NamesOk(s) && UsedDir(s, n) && UsedDir(s, d) && d != n && s.inodes[n].sectors == 0
    requires s.inodes[n].links < 0xFFFF && s.inodes[d].links < 0xFFFF
    ensures NamesOk(Dots(s, n, d).0)
  {
    if FreeBlocks(s) != {} {
      DotLeavesRoom(s, n);
      assert DirSound(s, n);
      EmptyDir(s, n);
      InsertInv(s, n, n, DOT_NAME, FT_DIR);
      InsertNames(s, n, n, DOT_NAME, FT_DIR);
      var s1 := NewDirEntry(s, n, n, DOT_NAME, FT_DIR).0;
      var e := LinkAdds(s, n, n, DOT_NAME, FT_DIR);
      assert FindIno(DirEntries(s1, n), DOT_DOT_NAME) == FindIno([], DOT_DOT_NAME);
      if NewDirEntry(s1, n, d, DOT_DOT_NAME, FT_DIR).1 { InsertNames(s1, n, d, DOT_DOT_NAME, FT_DIR); }
    }
  }

  lemma MkdirNames(s: State, d: nat, name: Name, now: nat)
    requires Inv(s) && NamesOk(s) && UsedDir(s, d) && AddReady(s, d, name) && s.inodes[d].links < 0xFFFF && DirOk(s, d)
    requires FreeInodes(s) != {} ==> Roomy(s, d, name)
    requires FindIno(DirEntries(s, d), name) == None
    ensures NamesOk(MkdirAt(s, d, name, now).0)
  {
    if FreeInodes(s) != {} {
      var n, s1 := FreshNamed(s, d, name, now);
      NewInodeNames(s, S_IFDIR, now);
      CountDirNames(NewInodeOf(s, S_IFDIR, now).0);
      NewInodeFacts(s, S_IFDIR, now);
      SameFind(s, s1, d, name);
      NamedDirNames(s1, d, n, name);
    }
  }

  lemma NamedDirNames(s: State, d: nat, n: nat, name: Name)
    requires Inv(s) && NamesOk(s) && CanLink(s, d, n, name) && Parentless(s, d, n) && s.inodes[d].links < 0xFFFF
    requires FindIno(DirEntries(s, d), name) == None
    ensures var e := NewDirEntry(s, d, n, name, FT_DIR);
            && e.0.inodes[n].sectors == 0 && NamesOk(e.0)
            && (e.1 ==> NamesOk(Dots(e.0, n, d).0))
  {
    var e, ok := NamedDir(s, d, n, name);
    if ok {
      InsertInv(s, d, n, name, FT_DIR);
      InsertNames(s, d, n, name, FT_DIR);
      DotsNames(e, n, d);
    }
  }

  lemma RmNames(s: State, d: nat, name: Name)
    requires Inv(s) && NamesOk(s) && UsedDir(s, d) && Removable(s, d, name) && FindRemoval(s, d, name).Some?
    ensures NamesOk(RmDirEntry(s, d, name).0)
  {
    var r := RmDirEntry(s, d, name).0;
    assert DirSound(s, d);
    RmIsEdit(s, d, name);
    EditedNames(s, r, d, name);
    EditOthers(s, r, d, name);
    forall f: nat | UsedDir(r, f) && f != d ensures DirOk(r, f) && Clean(DirEntries(r, f)) {
      assert UsedDir(s, f);
      SameEntries(s, r, f);
    }
  }

  lemma EditedNames(s: State, r: State, d: nat, name: Name)
    requires Shaped(s) && DirOk(s, d) && Clean(DirEntries(s, d)) && PointersOk(s.inodes[d].ptr, |s.blocks|)
    requires Removable(s, d, name) && FindRemoval(s, d, name).Some?
    requires d < |r.inodes| && r.blocks == Edited(s, d, name).blocks
    requires r.inodes[d].ptr == s.inodes[d].ptr && r.inodes[d].sectors == s.inodes[d].sectors
    ensures DirOk(r, d) && Clean(DirEntries(r, d))
  {
    var u := Edited(s, d, name);
    var a, x, y, b := EditShape(s, d, name);
    EditClean(DirEntries(s, d), DirEntries(u, d), a, x, y, b);
    SameEntries(u, r, d);
  }

  lemma RevivedNames(s: State, d: nat, j: nat, k: nat, o: nat, q: nat, end: nat, name: Name)
    requires Inv(s) && NamesOk(s) && UsedDir(s, d) && DirOk(s, d) && FindIno(DirEntries(s, d), name) == None
    requires j < NumDirect(s.inodes[d].ptr) && s.inodes[d].ptr[j] == k < |s.blocks|
    requires RecOk(s.blocks[k], o) && Chain(s.blocks[k], 0, o) && Slack(s.blocks[k], o) != []
    requires end == o + RecLen(s.blocks[k], o) && Chain(s.blocks[k], end, BLOCK_SIZE) && q == Slack(s.blocks[k], o)[0]
    requires o + HEADER <= q && q + MIN_SLOT <= end && Candidate(s, k, q, name)
    ensures NamesOk(Revive(s, k, o, q, end))
  {
    var t, n := ReviveState(s, k, o, q, end, name);
    TakenNames(s, t);
    RelinkNames(t, Revive(s, k, o, q, end), d, j, o, n, Relink(s.blocks[k], o, q, end), name);
  }

  lemma TakenNames(s: State, t: State)
    requires Inv(s) && NamesOk(s) && t.blocks == s.blocks && t.inodes == s.inodes && |t.inodeBits| == |s.inodeBits|
    ensures NamesOk(t)
  {
    forall d: nat | UsedDir(t, d) ensures DirOk(t, d) && Clean(DirEntries(t, d)) {
      DirUsed(s, d);
      SameEntries(s, t, d);
    }
  }

  lemma RelinkNames(t: State, r: State, d: nat, j: nat, o: nat, n: nat, b': Block, name: Name)
    requires AllocOk(t) && TreeOk(t) && NamesOk(t) && UsedDir(t, d) && RelinksFirst(t, r, d, j, o, n)
    requires Relinks(t, r, t.inodes[d].ptr[j], n, b') && FindIno(DirEntries(t, d), name) == None
    requires var k := t.inodes[d].ptr[j]; NameOf(t.blocks[k], Slack(t.blocks[k], o)[0]) == name
    ensures NamesOk(r)
  {
    var a, x, e, b := RelinkShape(t, r, d, j, o, n);
    SplitClean(DirEntries(t, d), DirEntries(r, d), a, x, e, b);
    RelinkOthers(t, r, d, j, n, b');
    forall f: nat | UsedDir(r, f) && f != d ensures DirOk(r, f) && Clean(DirEntries(r, f)) {
      assert UsedDir(t, f);
      SameEntries(t, r, f);
    }
  }

  lemma RestoreNames(s: State, d: nat, name: Name)
    requires Inv(s) && NamesOk(s) && UsedDir(s, d) && DirOk(s, d) && DirSlacksOk(s, d)
    requires RestoresFirst(s, d, name) && FindIno(DirEntries(s, d), name) == None
    ensures NamesOk(RestoreDirEntry(s, d, name).s)
  {
    var r := RestoreDirEntry(s, d, name);
    if r.done && !r.stopped {
      var k, o := OnlySite(s, d, name);
      SingleNames(s, d, name, k, o);
    } else {
      NothingRestored(s, d, name);
    }
  }

  lemma SingleNames(s: State, d: nat, name: Name, k: nat, o: nat)
    requires Inv(s) && NamesOk(s) && SingleSite(s, d, name, k, o, 0) && FindIno(DirEntries(s, d), name) == None
    ensures NamesOk(RestoreDirEntry(s, d, name).s)
  {
    var i := SingleScan(s, d, name, k, o, 0);
    RevivedNames(s, d, i, k, o, Slack(s.blocks[k], o)[0], o + RecLen(s.blocks[k], o), name);
  }

  lemma NothingRestored(s: State, d: nat, name: Name)
    requires Shaped(s) && UsedDir(s, d) && DirOk(s, d) && DirSlacksOk(s, d) && RestoresFirst(s, d, name)
    requires !(RestoreDirEntry(s, d, name).done && !RestoreDirEntry(s, d, name).stopped)
    ensures RestoreDirEntry(s, d, name).s == s
  {
    var site := SiteOf(s, Direct(s.inodes[d].ptr), name);
    if site.Some? {
      var j := EffectAt(s, d, name, site.value.0, site.value.1);
      GivenUp(s, site.value.0, site.value.1, name);
    } else {
      NoEffect(s, d, name);
    }
  }

  lemma GivenUp(s: State, k: nat, o: nat, name: Name)
    requires Shaped(s) && k < |s.blocks| && RecOk(s.blocks[k], o) && OnlyMatch(s, k, Slack(s.blocks[k], o), 0, name)
    requires !(ScanAt(s, k, o, name).done && !ScanAt(s, k, o, name).stopped)
    ensures ScanAt(s, k, o, name).s == s
  {
    ScanSingle(s, k, o, Slack(s.blocks[k], o), o + RecLen(s.blocks[k], o), 0, name);
  }

  // ---------- the commands, and runs ----------

  lemma NothingNamed(s: State, p: Path, d: nat)
    requires Inv(s) && Navigable(s) && NamesOk(s) && IsAbsolute(p) && ByPath(s, p) == None
    requires ByPath(s, FilePath(p)) == Some(d) && IsDir(s.inodes[d].mode)
    ensures UsedDir(s, d) && DirOk(s, d) && FindIno(DirEntries(s, d), FileName(p)) == None
  {
    NewName(s, p, d);
    if FindIno(DirEntries(s, d), FileName(p)).Some? { FindSome(DirEntries(s, d), FileName(p)); }
  }

  /** The name that cp uses is new, and restore brings back at most one record; nothing about the others. */
  ghost predicate Fresh(s: State, c: Command)
    requires Sane(s)
  {
    match c
    case Cp(_, sourceName, dest, _) =>
      var t := CpTarget(s, sourceName, dest);
      t.Some? && DirOk(s, t.value.0) ==> FindIno(DirEntries(s, t.value.0), t.value.1) == None
    case Restore(path) =>
      var t := RestoreTarget(s, path);
      t.Some? && t.value.0 < |s.inodes| && DirOk(s, t.value.0) ==> RestoresFirst(s, t.value.0, t.value.1)
    case _ => true
  }

  lemma MkdirStepNames(s: State, path: Path, now: nat)
    requires Inv(s) && NamesOk(s) && MkdirLegal(s, path)
    ensures NamesOk(MkdirStep(s, path, now).0)
  {
    var t := MkdirTarget(s, path);
    if t.Some? {
      TrimmedName(path);
      NothingNamed(s, Trim(path), t.value.0);
      MkdirNames(s, t.value.0, t.value.1, now);
    }
  }

  /** Of all the commands it is cp that can give a name twice: exactly when the directory has it. */
  lemma CpStepNames(s: State, file: Option<seq<Byte>>, sourceName: Name, dest: Path, now: nat, d: nat, name: Name)
    requires Inv(s) && NamesOk(s) && CpLegal(s, file, sourceName, dest)
    requires CpTarget(s, sourceName, dest) == Some((d, name))
    requires DirOk(s, d)
    ensures var r := CpStep(s, file, sourceName, dest, now);
            && (FindIno(DirEntries(s, d), name) == None ==> NamesOk(r.0))
            && (r.1 ==> (NamesOk(r.0) <==> FindIno(DirEntries(s, d), name) == None))
  {
    if file.Some? && FreeInodes(s) != {} {
      DirUsed(s, d);
      ModesAre();
      AddFileNames(s, d, name, S_IFREG, FT_REG_FILE, CString(file.value), now);
    }
  }

  lemma LnStepNames(s: State, source: Path, dest: Path)
    requires Inv(s) && NamesOk(s) && LnLegal(s, source, dest)
    ensures NamesOk(LnStep(s, source, dest).0)
  {
    var t := LnTarget(s, source, dest);
    if t.Some? && Inserts(s, t.value.1, t.value.2) {
      NothingNamed(s, dest, t.value.1);
      ParentUsed(s, source, dest);
      InsertNames(s, t.value.1, t.value.0, t.value.2, FT_REG_FILE);
    }
  }

  lemma LnSStepNames(s: State, source: Path, dest: Path, now: nat)
    requires Inv(s) && NamesOk(s) && LnSLegal(s, source, dest)
    ensures NamesOk(LnSStep(s, source, dest, now).0)
  {
    var t := LnTarget(s, source, dest);
    if t.Some? {
      ModesAre();
      if Inserts(s, t.value.1, t.value.2) {
        NothingNamed(s, dest, t.value.1);
        AddFileNames(s, t.value.1, t.value.2, S_IFLNK, FT_SYMLINK, source, now);
      } else {
        var r := NoRecordInv(s, t.value.1, t.value.2, S_IFLNK, FT_SYMLINK, source, now);
        NewInodeNames(s, S_IFLNK, now);
      }
    }
  }

  lemma RmStepNames(s: State, path: Path)
    requires Inv(s) && NamesOk(s) && RmLegal(s, path)
    ensures NamesOk(RmStep(s, path).0)
  {
    var t := RmTarget(s, path);
    if t.Some? && FindRemoval(s, t.value.0, t.value.1).Some? {
      DirUsed(s, t.value.0);
      RmNames(s, t.value.0, t.value.1);
    }
  }

  lemma RestoreStepNames(s: State, path: Path)
    requires Inv(s) && NamesOk(s) && RestoreLegal(s, path) && Fresh(s, Restore(path))
    ensures NamesOk(RestoreStep(s, path).0)
  {
    var t := RestoreTarget(s, path);
    if t.Some? && IsDir(s.inodes[t.value.0].mode) {
      NothingNamed(s, path, t.value.0);
      RestoreNames(s, t.value.0, t.value.1);
    }
  }

  lemma StepNames(s: State, c: Command)
    requires Inv(s) && NamesOk(s) && Legal(s, c) && Runnable(s, c) && Fresh(s, c)
    ensures NamesOk(Step(s, c).0)
  {
    match c
    case Mkdir(path, now) => MkdirStepNames(s, path, now);
    case Cp(file, sourceName, dest, now) =>
      var t := CpTarget(s, sourceName, dest);
      if t.Some? {
        DirUsed(s, t.value.0);
        CpStepNames(s, file, sourceName, dest, now, t.value.0, t.value.1);
      }
    case Ln(source, dest) => LnStepNames(s, source, dest);
    case LnS(source, dest, now) => LnSStepNames(s, source, dest, now);
    case Rm(path) => RmStepNames(s, path);
    case Restore(path) => RestoreStepNames(s, path);
  }

  lemma OneMoreNames(s: State, c: Command, s': State)
    requires Inv(s) && NamesOk(s) && Legal(s, c) && Runnable(s, c) && Fresh(s, c) && s' == Step(s, c).0
    ensures NamesOk(s')
  {
    StepNames(s, c);
  }

  /** A run in which cp is given new names only, and restore finds one record at a time. */
  ghost predicate FreshRun(ss: seq<State>, cs: seq<Command>) {
    Run(ss, cs) && forall j :: 0 <= j < |cs| ==> Fresh(ss[j], cs[j])
  }

  lemma FreshStep(ss: seq<State>, cs: seq<Command>, i: nat)
    requires FreshRun(ss, cs) && i < |cs|
    ensures Legal(ss[i], cs[i]) && Runnable(ss[i], cs[i]) && Fresh(ss[i], cs[i]) && ss[i + 1] == Step(ss[i], cs[i]).0
  {
  }

  lemma FreshInv(ss: seq<State>, cs: seq<Command>, i: nat)
    requires FreshRun(ss, cs) && Inv(ss[0]) && i < |ss|
    ensures Inv(ss[i])
  {
    RunInv(ss, cs, i);
  }

  lemma NamesAt(ss: seq<State>, cs: seq<Command>, i: nat, s: State, s': State)
    requires FreshRun(ss, cs) && Inv(ss[0]) && i < |cs| && s == ss[i] && s' == ss[i + 1] && NamesOk(s)
    ensures NamesOk(s')
  {
    FreshInv(ss, cs, i);
    FreshStep(ss, cs, i);
    OneMoreNames(s, cs[i], s');
  }

  /** Over every such run the names of each directory are distinct and no record is blank. */
  lemma {:induction false} RunNames(ss: seq<State>, cs: seq<Command>, i: nat)
    requires FreshRun(ss, cs) && Inv(ss[0]) && NamesOk(ss[0]) && i < |ss|
    ensures NamesOk(ss[i])
    decreases i
  {
    if i > 0 {
      var p := i - 1;
      RunNames(ss, cs, p);
      NamesAt(ss, cs, p, ss[p], ss[i]);
    }
  }

  /** The blank disk is one to start from. */
  lemma BlankNames()
    ensures Inv(BlankDisk()) && NamesOk(BlankDisk())
  {
    BlankInv();
    ModesAre();
    EmptyPointers(BlankDisk().inodes[ROOT].ptr);
    assert forall d: nat :: UsedDir(BlankDisk(), d) ==> d == ROOT;
  }
}

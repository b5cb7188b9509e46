/** The commands as steps of the abstract tree, and what they do to paths. */
module TreeSteps {
  import opened Options
  import opened Bytes
  import opened Records
  import opened DirBlocks
  import opened DiskState
  import opened Directory
  import opened Invariant
  import opened Insertion
  import opened InsertLooks
  import opened NewInodes
  import opened Paths
  import opened Lookups
  import opened Commands
  import opened PathFacts
  import opened Runs
  import opened Tree

  // ---------- insertions keep every path ----------

  /** No edge is lost or redirected, and no inode in use changes its kind. */
  ghost predicate Extends(s: State, s': State) {
    && |s'.inodes| == |s.inodes|
    && (forall k :: k in TreeOf(s) ==> k in TreeOf(s') && TreeOf(s')[k] == TreeOf(s)[k])
    && (forall n :: 0 <= n < |s.inodes| && Used(s, n) ==> s'.inodes[n].mode == s.inodes[n].mode)
  }

  lemma EdgeKept(s: State, s': State, d: nat, name: Name)
    requires Extends(s, s') && UsedDir(s, d) && DirOk(s, d) && Lookup(s, d, name).Some?
    ensures DirOk(s', d) && Lookup(s', d, name) == Lookup(s, d, name)
  {
    assert (d, name) in TreeOf(s);
    assert TreeOf(s')[(d, name)] == TreeOf(s)[(d, name)];
  }

  lemma {:induction false} WalkKept(s: State, s': State, inode: nat, p: Path)
    requires Inv(s) && Navigable(s) && Navigable(s') && Extends(s, s') && InUse(s, inode)
    requires WalkPath(s, inode, p).Some?
    ensures WalkPath(s', inode, p) == WalkPath(s, inode, p)
    decreases |p|
  {
    if Shift(p).Some? {
      var (c, rest) := Shift(p).value;
      if IsDir(s.inodes[inode].mode) {
        LookupInside(s, inode, c);
        LookupInside(s', inode, c);
        EdgeKept(s, s', inode, c);
        LookupUsed(s, inode, c);
        WalkKept(s, s', Lookup(s, inode, c).value, rest);
      } else {
        WalkKept(s, s', inode, rest);
      }
    }
  }

  /** Every path that led somewhere leads there still. */
  lemma PathsKept(s: State, s': State)
    requires Inv(s) && Navigable(s) && Navigable(s') && Extends(s, s')
    ensures forall p :: ByPath(s, p).Some? ==> ByPath(s', p) == ByPath(s, p)
  {
    forall p | ByPath(s, p).Some? ensures ByPath(s', p) == ByPath(s, p) { WalkKept(s, s', ROOT, p); }
  }

  /** A path whose directory part led to `d` leads to what `d` now calls its last name. */
  lemma NewPath(s: State, s': State, p: Path, d: nat, n: nat)
    requires Inv(s) && Navigable(s) && Navigable(s') && Extends(s, s')
    requires SLASH in p && ByPath(s, FilePath(p)) == Some(d) && UsedDir(s, d) && FileName(p) != []
    requires Edge(s', d, FileName(p)) == Some(n)
    ensures ByPath(s', p) == Some(n)
  {
    WalkKept(s, s', ROOT, FilePath(p));
    SplitPath(s', p, d);
  }

  // ---------- mkdir ----------

  lemma FreshEdges(s: State, d: nat, mode: nat, now: nat) returns (n: nat, s0: State)
    requires Inv(s) && UsedDir(s, d) && FreeInodes(s) != {}
    ensures NewInodeOf(s, mode, now) == (s0, Some(n)) && n == Least(FreeInodes(s)) && d != n
    ensures TreeOf(s0) == TreeOf(s) && |s0.inodes| == |s.inodes| && n in FreeInodes(s)
    ensures s0.inodes[n] == Inode(mode, 0, now, 0, 0, 0, seq(POINTERS, _ => 0))
    ensures forall m :: 0 <= m < |s.inodes| && m != n ==> s0.inodes[m] == s.inodes[m]
    ensures s0.blocks == s.blocks && s0.inodeBits == s.inodeBits[n := true]
  {
    n, s0 := FreshInode(s, d, mode, now);
    EmptyPointers(s0.inodes[n].ptr);
    NewInodeEdges(s, s0, n);
  }

  /** The records of `d`, and so what hides a name, are those of before. */
  lemma SameAhead(s: State, s': State, d: nat)
    requires DirOk(s, d) && Insertable(s, d) && d < |s'.inodes| && s'.inodes[d] == s.inodes[d] && s'.blocks == s.blocks
    ensures DirOk(s', d) && Insertable(s', d) && Ahead(s', d) == Ahead(s, d)
  {
    SameEntries(s, s', d);
  }

  lemma EmptyDir(s: State, n: nat)
    requires DirSound(s, n) && s.inodes[n].sectors == 0
    ensures DirOk(s, n) && DirEntries(s, n) == []
  {
    assert Direct(s.inodes[n].ptr) == [];
  }

  /** The records "." and "..": two more edges. */
  lemma DotsEdges(s: State, n: nat, d: nat)
    requires Inv(s) && UsedDir(s, n) && UsedDir(s, d) && d != n && s.inodes[n].sectors == 0
    requires s.inodes[n].links < 0xFFFF && s.inodes[d].links < 0xFFFF && Dots(s, n, d).1
    ensures TreeOf(Dots(s, n, d).0) == TreeOf(s)[(n, DOT_NAME) := n][(n, DOT_DOT_NAME) := d]
  {
    DotLeavesRoom(s, n);
    assert DirSound(s, n);
    EmptyDir(s, n);
    LinkEdge(s, n, n, DOT_NAME, FT_DIR);
    InsertInv(s, n, n, DOT_NAME, FT_DIR);
    var s1 := NewDirEntry(s, n, n, DOT_NAME, FT_DIR).0;
    var e := LinkAdds(s, n, n, DOT_NAME, FT_DIR);
    assert FindIno(DirEntries(s1, n), DOT_DOT_NAME) == FindIno([], DOT_DOT_NAME);
    NewNotShadowed(s, n, DOT_NAME);
    NewNotShadowed(s1, n, DOT_DOT_NAME);
    LinkEdge(s1, n, d, DOT_DOT_NAME, FT_DIR);
  }

  /** A new directory, empty and without a name, and a parent for it. */
  ghost predicate Parentless(s: State, d: nat, n: nat) {
    && UsedDir(s, n) && UsedDir(s, d) && d != n && s.inodes[n].sectors == 0 && s.inodes[n].links == 0
    && DirOk(s, d) && Insertable(s, d)
  }

  lemma FreshParentless(s: State, d: nat, now: nat) returns (n: nat, s1: State)
    requires Inv(s) && UsedDir(s, d) && FreeInodes(s) != {} && DirOk(s, d) && Insertable(s, d)
    ensures n == Least(FreeInodes(s)) && s1 == CountDir(NewInodeOf(s, S_IFDIR, now).0)
    ensures Parentless(s1, d, n) && IsDir(s1.inodes[n].mode)
    ensures TreeOf(s1) == TreeOf(s) && Ahead(s1, d) == Ahead(s, d)
    ensures n in FreeInodes(s) && |s1.inodes| == |s.inodes|
    ensures forall m :: 0 <= m < |s.inodes| && m != n ==> s1.inodes[m] == s.inodes[m]
  {
    var s0;
    n, s0 := FreshEdges(s, d, S_IFDIR, now);
    ModesAre();
    s1 := CountDir(s0);
    SameAhead(s, s1, d);
    CountEdges(s0);
  }

  lemma CountEdges(s: State)
    ensures TreeOf(CountDir(s)) == TreeOf(s)
  {
    var s' := CountDir(s);
    forall d: nat, name ensures Edge(s', d, name) == Edge(s, d, name) {
      if UsedDir(s, d) && DirOk(s, d) { SameEntries(s, s', d); }
    }
    SameEdges(s, s');
  }

  /** Inodes in use before kept their kind. */
  ghost predicate ModesKept(s: State, s': State) {
    |s'.inodes| == |s.inodes| && forall n :: 0 <= n < |s.inodes| && Used(s, n) ==> s'.inodes[n].mode == s.inodes[n].mode
  }

  lemma InsertModes(s: State, d: nat, child: nat, name: Name, ft: Byte)
    requires Shaped(s) && Insertable(s, d) && child < |s.inodes| && |name| < 0x100
    ensures ModesKept(s, NewDirEntry(s, d, child, name, ft).0)
    ensures forall n :: 0 <= n < |s.inodes| ==> NewDirEntry(s, d, child, name, ft).0.inodes[n].mode == s.inodes[n].mode
  {
  }

  lemma DotsModes(s: State, n: nat, d: nat)
    requires Shaped(s) && n < |s.inodes| && d < |s.inodes| && s.inodes[n].sectors == 0
    ensures |Dots(s, n, d).0.inodes| == |s.inodes|
    ensures forall m :: 0 <= m < |s.inodes| ==> Dots(s, n, d).0.inodes[m].mode == s.inodes[m].mode
  {
    if FreeBlocks(s) != {} {
      DotLeavesRoom(s, n);
      var f := NewDirEntry(s, n, n, DOT_NAME, FT_DIR).0;
      assert forall m :: 0 <= m < |s.inodes| ==> f.inodes[m].mode == s.inodes[m].mode;
    }
  }

  /** A record in the parent, then the dots. */
  lemma NamedDirEdges(s: State, d: nat, n: nat, name: Name, e: State) returns (r: State)
    requires Inv(s) && CanLink(s, d, n, name) && Parentless(s, d, n) && s.inodes[d].links < 0xFFFF
    requires NewDirEntry(s, d, n, name, FT_DIR) == (e, true)
    ensures e.inodes[n].sectors == 0 && r == Dots(e, n, d).0 && |r.inodes| == |s.inodes|
    ensures Dots(e, n, d).1 ==> TreeOf(r) == WithDir(WithName(s, d, name, n), n, d)
    ensures forall m :: 0 <= m < |s.inodes| ==> r.inodes[m].mode == s.inodes[m].mode
  {
    var e', ok := NamedDir(s, d, n, name);
    InsertInv(s, d, n, name, FT_DIR);
    LinkEdge(s, d, n, name, FT_DIR);
    InsertModes(s, d, n, name, FT_DIR);
    r := Dots(e, n, d).0;
    if Dots(e, n, d).1 { DotsEdges(e, n, d); }
    DotsModes(e, n, d);
  }

  /** The tree with "." and ".." in directory `n`. */
  function WithDir(t: Edges, n: nat, d: nat): Edges { t[(n, DOT_NAME) := n][(n, DOT_DOT_NAME) := d] }

  /** After new_inode_dir the record in the parent can be put. */
  lemma FreshNamed(s: State, d: nat, name: Name, now: nat) returns (n: nat, s1: State)
    requires Inv(s) && UsedDir(s, d) && AddReady(s, d, name) && Roomy(s, d, name) && s.inodes[d].links < 0xFFFF
    requires DirOk(s, d) && FreeInodes(s) != {}
    ensures n == Least(FreeInodes(s)) && s1 == CountDir(NewInodeOf(s, S_IFDIR, now).0) && n in FreeInodes(s)
    ensures Inv(s1) && CanLink(s1, d, n, name) && Parentless(s1, d, n) && s1.inodes[d].links < 0xFFFF
    ensures TreeOf(s1) == TreeOf(s) && Ahead(s1, d) == Ahead(s, d)
    ensures IsDir(s1.inodes[n].mode) && |s1.inodes| == |s.inodes|
    ensures forall m :: 0 <= m < |s.inodes| && m != n ==> s1.inodes[m] == s.inodes[m]
  {
    var m, s0 := FreshDir(s, d, name, now);
    n, s1 := FreshParentless(s, d, now);
  }

  lemma MkdirIs(s: State, d: nat, name: Name, now: nat, n: nat, s1: State) returns (e: State)
    requires AddReady(s, d, name) && FreeInodes(s) != {} && MkdirAt(s, d, name, now).1
    requires n == Least(FreeInodes(s)) && s1 == CountDir(NewInodeOf(s, S_IFDIR, now).0)
    requires Insertable(s1, d) && n < |s1.inodes| && Shaped(s1)
    ensures NewDirEntry(s1, d, n, name, FT_DIR) == (e, true)
    ensures Shaped(e) && n < |e.inodes| && d < |e.inodes| && MkdirAt(s, d, name, now) == Dots(e, n, d)
  {
    e := NewDirEntry(s1, d, n, name, FT_DIR).0;
  }

  lemma SameWithName(s: State, s1: State, d: nat, name: Name, n: nat)
    requires DirOk(s, d) && Insertable(s, d) && DirOk(s1, d) && Insertable(s1, d)
    requires TreeOf(s1) == TreeOf(s) && Ahead(s1, d) == Ahead(s, d)
    ensures WithName(s1, d, name, n) == WithName(s, d, name, n)
  {
  }

  /** mkdir as a step of the tree: the new directory under its name, with "." and "..". */
  lemma MkdirEdges(s: State, d: nat, name: Name, now: nat) returns (n: nat, r: State)
    requires Inv(s) && UsedDir(s, d) && AddReady(s, d, name) && Roomy(s, d, name) && s.inodes[d].links < 0xFFFF
    requires DirOk(s, d) && MkdirAt(s, d, name, now).1
    ensures r == MkdirAt(s, d, name, now).0 && n in FreeInodes(s) && n == Least(FreeInodes(s))
    ensures TreeOf(r) == WithDir(WithName(s, d, name, n), n, d)
    ensures ModesKept(s, r) && IsDir(r.inodes[n].mode)
  {
    var s1;
    n, s1 := FreshNamed(s, d, name, now);
    var e := MkdirIs(s, d, name, now, n, s1);
    r := NamedDirEdges(s1, d, n, name, e);
    SameWithName(s, s1, d, name, n);
  }
}

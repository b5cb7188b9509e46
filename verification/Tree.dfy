/**
 * The disk as an abstract tree: which inode each used directory calls by which name.  Every
 * command is an insertion into that tree or a deletion from it, and insertions keep every path.
 */
module Tree {
  import opened Options
  import opened Bytes
  import opened Records
  import opened DirBlocks
  import opened DiskState
  import opened Directory
  import opened Invariant
  import opened Insertion
  import opened InsertLooks
  import opened RemovalProofs
  import opened RemovalInv
  import opened Restoration
  import opened RestoreTree
  import opened WriteProofs
  import opened CpRm

  ghost function Edge(s: State, d: nat, name: Name): Option<nat> {
    if UsedDir(s, d) && DirOk(s, d) then Lookup(s, d, name) else None
  }

  type Edges = imap<(nat, Name), nat>

  ghost function TreeOf(s: State): Edges {
    imap k: (nat, Name) | Edge(s, k.0, k.1).Some? :: Edge(s, k.0, k.1).value
  }

  // ---------- what the primitive steps do to the tree ----------

  lemma SameEdges(s: State, s': State)
    requires forall d: nat, name :: Edge(s', d, name) == Edge(s, d, name)
    ensures TreeOf(s') == TreeOf(s)
  {
  }

  lemma OneEdge(s: State, s': State, d: nat, name: Name, n: nat)
    requires forall f: nat, m :: Edge(s', f, m) == if f == d && m == name then Some(n) else Edge(s, f, m)
    ensures TreeOf(s') == TreeOf(s)[(d, name) := n]
  {
  }

  lemma AddsEdge(s: State, s': State, d: nat, e: Entry)
    requires DirOk(s, d) && DirOk(s', d) && UsedDir(s, d) && UsedDir(s', d)
    requires Adds(DirEntries(s, d), DirEntries(s', d), e) && FindIno(DirEntries(s, d), e.name) == None && e.ino > 0
    ensures forall m :: Edge(s', d, m) == if m == e.name then Some(e.ino - 1) else Edge(s, d, m)
  {
  }

  lemma EdgesElsewhere(s: State, s': State, f: nat)
    requires UsedDir(s, f) && DirOk(s, f) && UsedDir(s', f) && SameDir(s, s', f)
    ensures forall m :: Edge(s', f, m) == Edge(s, f, m)
  {
    SameEntries(s, s', f);
  }

  /** The tree with a new name for inode `n`, unless a record that comes first hides it. */
  ghost function WithName(s: State, d: nat, name: Name, n: nat): Edges
    requires DirOk(s, d) && Insertable(s, d)
  { if Shadowed(s, d, name) then TreeOf(s) else TreeOf(s)[(d, name) := n] }

  lemma PutsEdge(s: State, s': State, d: nat, name: Name, n: nat)
    requires DirOk(s, d) && DirOk(s', d) && UsedDir(s, d) && UsedDir(s', d) && Insertable(s, d)
    requires Puts(Ahead(s, d), DirEntries(s, d), DirEntries(s', d), name, n + 1)
    requires forall f: nat, m :: f != d ==> Edge(s', f, m) == Edge(s, f, m)
    ensures TreeOf(s') == WithName(s, d, name, n)
  {
    if Shadowed(s, d, name) {
      SameEdges(s, s');
    } else {
      OneEdge(s, s', d, name, n);
    }
  }

  /** new_dir_entry adds one edge, or none if the name is hidden. */
  lemma LinkEdge(s: State, d: nat, child: nat, name: Name, ft: Byte)
    requires Inv(s) && CanLink(s, d, child, name) && NewDirEntry(s, d, child, name, ft).1 && DirOk(s, d)
    ensures TreeOf(NewDirEntry(s, d, child, name, ft).0) == WithName(s, d, name, child)
  {
    var s' := NewDirEntry(s, d, child, name, ft).0;
    InsertLooksUp(s, d, child, name, ft);
    InsertKeepsOthers(s, d, child, name, ft);
    UsedDirsKept(s, d, child, name, ft);
    EdgesOfOthers(s, s', d);
    PutsEdge(s, s', d, name, child);
  }

  lemma UsedDirsKept(s: State, d: nat, child: nat, name: Name, ft: Byte)
    requires Shaped(s) && Insertable(s, d) && child < |s.inodes| && |name| < 0x100
    ensures var s' := NewDirEntry(s, d, child, name, ft).0; forall f: nat :: UsedDir(s', f) <==> UsedDir(s, f)
  {
  }

  lemma EdgesOfOthers(s: State, s': State, d: nat)
    requires TreeOk(s) && |s'.inodes| == |s.inodes| && forall f: nat :: UsedDir(s', f) <==> UsedDir(s, f)
    requires forall f: nat :: UsedDir(s, f) && f != d ==> SameDir(s, s', f)
    ensures forall f: nat, m :: f != d ==> Edge(s', f, m) == Edge(s, f, m)
  {
    forall f: nat, m | f != d ensures Edge(s', f, m) == Edge(s, f, m) {
      if UsedDir(s, f) {
        assert DirSound(s, f);
        EdgesElsewhere(s, s', f);
      }
    }
  }

  /** An inode that comes into use without records changes no edge. */
  lemma NewInodeEdges(s: State, s': State, n: nat)
    requires TreeOk(s) && |s.inodes| == |s.inodeBits| && ComesIntoUse(s, s', n)
    ensures TreeOf(s') == TreeOf(s)
  {
    forall d: nat, name ensures Edge(s', d, name) == Edge(s, d, name) {
      if d != n && UsedDir(s, d) {
        assert DirSound(s, d);
        EdgesElsewhere(s, s', d);
      } else if d == n && UsedDir(s', n) {
        assert Direct(s'.inodes[n].ptr) == [];
        assert DirOk(s', n) ==> DirEntries(s', n) == [];
      }
    }
    SameEdges(s, s');
  }

  /** Writing a file changes no edge. */
  lemma UntouchedEdges(s: State, s': State, n: nat)
    requires Inv(s) && Untouched(s, s', n) && Used(s, n) && !IsDir(s.inodes[n].mode)
    requires s'.inodes[n].mode == s.inodes[n].mode
    ensures TreeOf(s') == TreeOf(s)
  {
    forall d: nat, name ensures Edge(s', d, name) == Edge(s, d, name) {
      if UsedDir(s, d) { UntouchedEntries(s, s', d, n); }
    }
    SameEdges(s, s');
  }

  /** Dropping a link changes no edge, unless a directory loses its last one. */
  lemma DropLinkEdges(u: State, n: nat, r: State)
    requires Shaped(u) && n < |u.inodes| && (!IsDir(u.inodes[n].mode) || 1 < u.inodes[n].links < 0x1_0000)
    requires forall f: nat :: UsedDir(u, f) ==> DirOk(u, f)
    requires r == DropLink(u, n)
    ensures forall f: nat, m :: Edge(r, f, m) == Edge(u, f, m)
  {
    forall f: nat, m ensures Edge(r, f, m) == Edge(u, f, m) {
      assert UsedDir(r, f) <==> UsedDir(u, f);
      if UsedDir(u, f) { SameEntries(u, r, f); }
    }
  }

  function InodeOf(ino: Option<nat>): Option<nat> { if ino.Some? && ino.value > 0 then Some(ino.value - 1) else None }

  /** Taking out the record of the name changes the edges of at most one name, and of no other directory. */
  lemma EditedEdges(s: State, d: nat, name: Name)
    requires Inv(s) && UsedDir(s, d) && Removable(s, d, name) && FindRemoval(s, d, name).Some?
    ensures var u := Edited(s, d, name); var z := RmName(s, d, name);
            && (forall f: nat :: UsedDir(u, f) ==> DirOk(u, f))
            && (forall f: nat, m :: f != d || m != z ==> Edge(u, f, m) == Edge(s, f, m))
            && (!FirstInBlock(s, d, name) ==> z == name)
            && Edge(u, d, name) == if FirstInBlock(s, d, name) then Edge(s, d, name)
                                   else InodeOf(FindIno(Behind(DirEntries(s, d), name), name))
  {
    var u := Edited(s, d, name);
    assert DirSound(s, d);
    EditLooks(s, d, name);
    EditOthers(s, u, d, name);
    OthersOk(s, u, d);
    EdgesOfOthers(s, u, d);
    OwnEdges(s, u, d, RmName(s, d, name));
    EdgeIs(u, d, name);
    EdgeIs(s, d, name);
  }

  lemma EdgeIs(s: State, d: nat, m: Name)
    requires UsedDir(s, d) && DirOk(s, d)
    ensures Edge(s, d, m) == InodeOf(FindIno(DirEntries(s, d), m))
  {
  }

  lemma OwnEdges(s: State, u: State, d: nat, z: Name)
    requires UsedDir(s, d) && DirOk(s, d) && UsedDir(u, d) && DirOk(u, d)
    requires forall m :: m != z ==> FindIno(DirEntries(u, d), m) == FindIno(DirEntries(s, d), m)
    requires forall f: nat, m :: f != d ==> Edge(u, f, m) == Edge(s, f, m)
    ensures forall f: nat, m :: f != d || m != z ==> Edge(u, f, m) == Edge(s, f, m)
  {
    forall m | m != z ensures Edge(u, d, m) == Edge(s, d, m) {
      EdgeIs(u, d, m);
      EdgeIs(s, d, m);
    }
  }

  lemma OthersOk(s: State, u: State, d: nat)
    requires TreeOk(s) && |u.inodes| == |s.inodes| && forall f: nat :: UsedDir(u, f) <==> UsedDir(s, f)
    requires (forall f: nat :: UsedDir(s, f) && f != d ==> SameDir(s, u, f)) && DirOk(u, d)
    ensures forall f: nat :: UsedDir(u, f) ==> DirOk(u, f)
  {
    forall f: nat | UsedDir(u, f) ensures DirOk(u, f) {
      if f != d {
        assert DirSound(s, f);
        SameEntries(s, u, f);
      }
    }
  }

  /** rm_dir_entry changes at most the edge of the record that goes. */
  lemma RmEdges(s: State, d: nat, name: Name)
    requires Inv(s) && UsedDir(s, d) && Removable(s, d, name) && FindRemoval(s, d, name).Some? && SparesDirs(s, d, name)
    ensures var r := RmDirEntry(s, d, name).0; var z := RmName(s, d, name);
            && (forall f: nat, m :: f != d || m != z ==> Edge(r, f, m) == Edge(s, f, m))
            && (!FirstInBlock(s, d, name) ==> z == name)
            && Edge(r, d, name) == if FirstInBlock(s, d, name) then Edge(s, d, name)
                                   else InodeOf(FindIno(Behind(DirEntries(s, d), name), name))
  {
    var n := RmInode(s, d, name);
    EditedEdges(s, d, name);
    RmIsEdit(s, d, name);
    var u, r := Edited(s, d, name), RmDirEntry(s, d, name).0;
    SparedLinks(s, d, name, n, u);
    DropLinkEdges(u, n, r);
    SameElsewhere(s, u, r, d, RmName(s, d, name));
  }

  lemma SparedLinks(s: State, d: nat, name: Name, n: nat, u: State)
    requires Inv(s) && Removable(s, d, name) && FindRemoval(s, d, name).Some? && SparesDirs(s, d, name)
    requires n == RmInode(s, d, name) && u == Edited(s, d, name)
    ensures Shaped(u) && n < |u.inodes| && (!IsDir(u.inodes[n].mode) || 1 < u.inodes[n].links < 0x1_0000)
  {
    assert InodeSound(s, n);
  }

  lemma SameElsewhere(s: State, u: State, r: State, d: nat, z: Name)
    requires forall f: nat, m :: f != d || m != z ==> Edge(u, f, m) == Edge(s, f, m)
    requires forall f: nat, m :: Edge(r, f, m) == Edge(u, f, m)
    ensures forall f: nat, m :: f != d || m != z ==> Edge(r, f, m) == Edge(s, f, m)
  {
  }

  lemma SameInodesEdges(s: State, t: State)
    requires TreeOk(s) && t.blocks == s.blocks && t.inodes == s.inodes
    requires |t.inodeBits| == |s.inodeBits| && forall m: nat :: Used(s, m) ==> Used(t, m)
    ensures TreeOf(t) == TreeOf(s)
  {
    forall d: nat, name ensures Edge(t, d, name) == Edge(s, d, name) {
      if UsedDir(t, d) { assert InodeSound(s, d); }
    }
    SameEdges(s, t);
  }

  lemma RelinkEdge(t: State, r: State, d: nat, j: nat, o: nat, n: nat, name: Name)
    requires AllocOk(t) && TreeOk(t) && UsedDir(t, d) && DirOk(t, d) && RelinksFirst(t, r, d, j, o, n) && Shaped(r)
    requires var k := t.inodes[d].ptr[j]; var q := Slack(t.blocks[k], o)[0];
             q + HEADER <= BLOCK_SIZE && NameOf(t.blocks[k], q) == name
    requires FindIno(DirEntries(t, d), name) == None
    ensures TreeOf(r) == TreeOf(t)[(d, name) := n]
  {
    var k := t.inodes[d].ptr[j];
    var b' := Relink(t.blocks[k], o, Slack(t.blocks[k], o)[0], o + RecLen(t.blocks[k], o));
    var a, x, e, b := RelinkShape(t, r, d, j, o, n);
    SplitAdds(a, x, MinLen(|x.name|), e, b);
    RelinkOthers(t, r, d, j, n, b');
    assert forall f: nat :: UsedDir(r, f) <==> UsedDir(t, f);
    EdgesOfOthers(t, r, d);
    AddsEdge(t, r, d, e);
    OneEdge(t, r, d, name, n);
  }

  /** A restore directly behind the live predecessor puts the edge back. */
  lemma RestoreEdge(s: State, d: nat, name: Name, k: nat, o: nat) returns (n: nat)
    requires Inv(s) && SingleSite(s, d, name, k, o, 0) && FindIno(DirEntries(s, d), name) == None
    requires Slack(s.blocks[k], o)[0] + HEADER <= BLOCK_SIZE
    ensures Ino(s.blocks[k], Slack(s.blocks[k], o)[0]) == n + 1
    ensures TreeOf(RestoreDirEntry(s, d, name).s) == TreeOf(s)[(d, name) := n]
  {
    var j := SingleScan(s, d, name, k, o, 0);
    n := RevivedEdge(s, d, j, k, o, Slack(s.blocks[k], o)[0], o + RecLen(s.blocks[k], o), name);
  }

  lemma RevivedEdge(s: State, d: nat, j: nat, k: nat, o: nat, q: nat, end: nat, name: Name) returns (n: nat)
    requires Inv(s) && UsedDir(s, d) && DirOk(s, d) && FindIno(DirEntries(s, d), name) == None
    requires j < NumDirect(s.inodes[d].ptr) && s.inodes[d].ptr[j] == k < |s.blocks|
    requires RecOk(s.blocks[k], o) && Chain(s.blocks[k], 0, o) && Slack(s.blocks[k], o) != []
    requires end == o + RecLen(s.blocks[k], o) && Chain(s.blocks[k], end, BLOCK_SIZE) && q == Slack(s.blocks[k], o)[0]
    requires o + HEADER <= q && q + MIN_SLOT <= end && Candidate(s, k, q, name)
    ensures Ino(s.blocks[k], q) == n + 1 && TreeOf(Revive(s, k, o, q, end)) == TreeOf(s)[(d, name) := n]
  {
    var t;
    t, n := ReviveState(s, k, o, q, end, name);
    SameInodesEdges(s, t);
    RelinkEdge(t, Revive(s, k, o, q, end), d, j, o, n, name);
  }
}

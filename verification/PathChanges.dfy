/** What becomes of paths when one name of the tree comes, goes or changes its inode. */
module PathChanges {
  import opened Options
  import opened Records
  import opened DiskState
  import opened Directory
  import opened Invariant
  import opened Paths
  import opened Lookups
  import opened Commands
  import opened PathFacts
  import opened Tree
  import opened TreeSteps
  import opened StepExactness
  import opened InsertLooks

  // ---------- a name more ----------

  /** A path that leads nowhere has a last name, and the directory has no inode of that name. */
  lemma NewName(s: State, p: Path, d: nat)
    requires Inv(s) && Navigable(s) && IsAbsolute(p) && ByPath(s, p) == None
    requires ByPath(s, FilePath(p)) == Some(d) && IsDir(s.inodes[d].mode)
    ensures SLASH in p && FileName(p) != [] && UsedDir(s, d) && Edge(s, d, FileName(p)) == None
  {
    AbsoluteHasSlash(p);
    SplitPath(s, p, d);
    DirUsed(s, d);
  }

  lemma NewInodeUnnamed(s: State, n: nat)
    requires Inv(s) && !Used(s, n)
    ensures forall m: Name :: (n, m) !in TreeOf(s)
    ensures forall p: Path :: Navigable(s) ==> ByPath(s, p) != Some(n)
  {
    forall p: Path | Navigable(s) ensures ByPath(s, p) != Some(n) {
      if ByPath(s, p) == Some(n) { ByPathUsed(s, p); }
    }
  }

  /** Nothing that had a name lost it. */
  lemma ExtendsWith(s: State, s': State, d: nat, name: Name, n: nat)
    requires ModesKept(s, s') && UsedDir(s, d) && DirOk(s, d) && Insertable(s, d)
    requires TreeOf(s') == WithName(s, d, name, n) && Edge(s, d, name) == None
    ensures Extends(s, s') && Edge(s', d, name) == if Shadowed(s, d, name) then None else Some(n)
  {
    EdgeOf(s, d, name);
    EdgeOf(s', d, name);
  }

  lemma EdgeOf(s: State, d: nat, name: Name)
    ensures (d, name) in TreeOf(s) <==> Edge(s, d, name).Some?
    ensures (d, name) in TreeOf(s) ==> Edge(s, d, name) == Some(TreeOf(s)[(d, name)])
  {
  }

  lemma TwoAdded<K, V>(m: imap<K, V>, m': imap<K, V>, k1: K, v1: V, k2: K, v2: V)
    requires m' == m[k1 := v1][k2 := v2] && k1 != k2
    ensures forall x :: x != k1 && x != k2 ==> (x in m' <==> x in m) && (x in m ==> m'[x] == m[x])
    ensures k1 in m' && m'[k1] == v1 && k2 in m' && m'[k2] == v2
  {
  }

  lemma ExtendsWithDir(s: State, s': State, d: nat, name: Name, n: nat)
    requires Inv(s) && ModesKept(s, s') && UsedDir(s, d) && DirOk(s, d) && Insertable(s, d) && n != d && !Used(s, n)
    requires TreeOf(s') == WithDir(WithName(s, d, name, n), n, d) && Edge(s, d, name) == None
    ensures Extends(s, s') && Edge(s', d, name) == if Shadowed(s, d, name) then None else Some(n)
    ensures Edge(s', n, DOT_NAME) == Some(n) && Edge(s', n, DOT_DOT_NAME) == Some(d)
  {
    EdgeOf(s, d, name);
    EdgeOf(s', d, name);
    EdgeOf(s', n, DOT_NAME);
    EdgeOf(s', n, DOT_DOT_NAME);
    TwoAdded(WithName(s, d, name, n), TreeOf(s'), (n, DOT_NAME), n, (n, DOT_DOT_NAME), d);
    NewInodeUnnamed(s, n);
    NamesStay(s, s', d, name, n);
  }

  lemma NamesStay(s: State, s': State, d: nat, name: Name, n: nat)
    requires DirOk(s, d) && Insertable(s, d) && (d, name) !in TreeOf(s) && forall m: Name :: (n, m) !in TreeOf(s)
    requires forall x: (nat, Name) :: x.0 != n && x in WithName(s, d, name, n) ==>
               x in TreeOf(s') && TreeOf(s')[x] == WithName(s, d, name, n)[x]
    ensures forall k :: k in TreeOf(s) ==> k in TreeOf(s') && TreeOf(s')[k] == TreeOf(s)[k]
  {
    forall k | k in TreeOf(s) ensures k in TreeOf(s') && TreeOf(s')[k] == TreeOf(s)[k] {
      assert (k.0, k.1) == k && k.0 != n;
      assert k in WithName(s, d, name, n) && WithName(s, d, name, n)[k] == TreeOf(s)[k];
    }
  }

  /** What a path leads to whose directory part led, and still leads, to `d`. */
  lemma NameLeads(s: State, s': State, p: Path, d: nat)
    requires Inv(s) && Navigable(s) && Navigable(s') && Extends(s, s') && UsedDir(s', d)
    requires SLASH in p && ByPath(s, FilePath(p)) == Some(d) && UsedDir(s, d) && FileName(p) != []
    ensures ByPath(s', p) == Edge(s', d, FileName(p))
    ensures forall q :: ByPath(s, q).Some? ==> ByPath(s', q) == ByPath(s, q)
  {
    PathsKept(s, s');
    SplitPath(s', p, d);
  }

  /** A name that nothing had comes, and the path of it leads to its inode. */
  lemma NameComes(s: State, s': State, p: Path, d: nat, n: nat)
    requires Inv(s) && Inv(s') && Navigable(s) && ModesKept(s, s') && UsedDir(s, d) && SLASH in p && FileName(p) != []
    requires TreeOf(s') == TreeOf(s)[(d, FileName(p)) := n] && Edge(s, d, FileName(p)) == None
    requires ByPath(s, FilePath(p)) == Some(d)
    ensures Navigable(s') && ByPath(s', p) == Some(n)
    ensures forall q :: ByPath(s, q).Some? ==> ByPath(s', q) == ByPath(s, q)
  {
    InvNavigable(s');
    EdgeOf(s, d, FileName(p));
    EdgeOf(s', d, FileName(p));
    DirUsed(s', d);
    NameLeads(s, s', p, d);
  }

  // ---------- one name changes ----------

  /** The walk of `p` from `inode` looks `name` up in directory `d`. */
  ghost predicate Uses(s: State, inode: nat, p: Path, d: nat, name: Name)
    requires Navigable(s) && inode < |s.inodes|
    decreases |p|
  {
    match Shift(p)
    case None => false
    case Some((c, rest)) =>
      && IsDir(s.inodes[inode].mode)
      && if inode == d && c == name then true
         else
           LookupInside(s, inode, c);
           match Lookup(s, inode, c)
           case None => false
           case Some(n) => Uses(s, n, rest, d, name)
  }

  /** Between `s` and `r` at most the one name came, went, or changed its inode. */
  ghost predicate Renames(s: State, r: State, d: nat, name: Name) {
    && Inv(s) && Inv(r) && Navigable(s) && Navigable(r) && ModesKept(s, r)
    && forall k :: k != (d, name) ==>
         (k in TreeOf(r) <==> k in TreeOf(s)) && (k in TreeOf(r) ==> TreeOf(r)[k] == TreeOf(s)[k])
  }

  lemma RenamesBy(s: State, r: State, d: nat, name: Name)
    requires Inv(s) && Inv(r) && Navigable(s) && Navigable(r) && ModesKept(s, r)
    requires forall f: nat, m :: f != d || m != name ==> Edge(r, f, m) == Edge(s, f, m)
    ensures Renames(s, r, d, name)
  {
    forall k | k != (d, name)
      ensures k in TreeOf(r) <==> k in TreeOf(s)
      ensures k in TreeOf(r) ==> TreeOf(r)[k] == TreeOf(s)[k]
    {
      EdgeOf(s, k.0, k.1);
      EdgeOf(r, k.0, k.1);
    }
  }

  lemma RenamesOne(s: State, r: State, inode: nat, c: Name, d: nat, name: Name)
    requires Renames(s, r, d, name) && UsedDir(s, inode) && (inode, c) != (d, name)
    ensures DirOk(s, inode) && DirOk(r, inode) && IsDir(r.inodes[inode].mode)
    ensures Lookup(r, inode, c) == Lookup(s, inode, c)
  {
    DirUsed(s, inode);
    DirUsed(r, inode);
    EdgeOf(s, inode, c);
    EdgeOf(r, inode, c);
  }

  /** A walk that does not use the name ends where it did. */
  lemma {:induction false} RenamesWalk(s: State, r: State, inode: nat, p: Path, d: nat, name: Name)
    requires Renames(s, r, d, name) && InUse(s, inode) && !Uses(s, inode, p, d, name)
    ensures WalkPath(r, inode, p) == WalkPath(s, inode, p)
    decreases |p|
  {
    if Shift(p).Some? {
      var (c, rest) := Shift(p).value;
      if IsDir(s.inodes[inode].mode) {
        LookupInside(s, inode, c);
        RenamesOne(s, r, inode, c, d, name);
        if Lookup(s, inode, c).Some? {
          LookupUsed(s, inode, c);
          RenamesWalk(s, r, Lookup(s, inode, c).value, rest, d, name);
        }
      } else {
        RenamesWalk(s, r, inode, rest, d, name);
      }
    }
  }

  /** A walk that uses the name goes to its inode, and if that is a file it ends there or fails. */
  lemma {:induction false} RenamesUse(s: State, r: State, inode: nat, p: Path, d: nat, name: Name, f: Option<nat>)
    requires Renames(s, r, d, name) && InUse(s, inode) && Uses(s, inode, p, d, name)
    requires Edge(r, d, name) == f && (f.Some? ==> !IsDirAt(r, f.value))
    ensures WalkPath(r, inode, p) in {None, f}
    decreases |p|
  {
    var (c, rest) := Shift(p).value;
    LookupInside(s, inode, c);
    assert IsDir(r.inodes[inode].mode);
    LookupInside(r, inode, c);
    DirUsed(r, inode);
    if inode == d && c == name {
      if f.Some? { assert WalkPath(r, f.value, []) == Some(f.value); }
    } else {
      RenamesOne(s, r, inode, c, d, name);
      LookupUsed(s, inode, c);
      RenamesUse(s, r, Lookup(s, inode, c).value, rest, d, name, f);
    }
  }

  ghost predicate IsDirAt(s: State, n: nat) { n < |s.inodes| && IsDir(s.inodes[n].mode) }

  lemma RootUsed(s: State)
    requires Inv(s)
    ensures InUse(s, ROOT)
  {
  }

  lemma RenamesPaths(s: State, r: State, d: nat, name: Name, f: Option<nat>)
    requires Renames(s, r, d, name) && Edge(r, d, name) == f && (f.Some? ==> !IsDirAt(r, f.value))
    ensures forall p :: !Uses(s, ROOT, p, d, name) ==> ByPath(r, p) == ByPath(s, p)
    ensures forall p :: Uses(s, ROOT, p, d, name) ==> ByPath(r, p) in {None, f}
  {
    RootUsed(s);
    forall p | !Uses(s, ROOT, p, d, name) ensures ByPath(r, p) == ByPath(s, p) { RenamesWalk(s, r, ROOT, p, d, name); }
    forall p | Uses(s, ROOT, p, d, name) ensures ByPath(r, p) in {None, f} { RenamesUse(s, r, ROOT, p, d, name, f); }
  }

  /** A walk that uses a name that nothing has fails. */
  lemma {:induction false} UsesNothing(s: State, inode: nat, p: Path, d: nat, name: Name)
    requires Inv(s) && Navigable(s) && InUse(s, inode) && Uses(s, inode, p, d, name) && Edge(s, d, name) == None
    ensures WalkPath(s, inode, p) == None
    decreases |p|
  {
    var (c, rest) := Shift(p).value;
    LookupInside(s, inode, c);
    DirUsed(s, inode);
    if inode != d || c != name {
      LookupUsed(s, inode, c);
      UsesNothing(s, Lookup(s, inode, c).value, rest, d, name);
    }
  }

  lemma UsersLost(s: State, d: nat, name: Name)
    requires Inv(s) && Navigable(s) && Edge(s, d, name) == None
    ensures forall p :: Uses(s, ROOT, p, d, name) ==> ByPath(s, p) == None
  {
    RootUsed(s);
    forall p | Uses(s, ROOT, p, d, name) ensures ByPath(s, p) == None { UsesNothing(s, ROOT, p, d, name); }
  }

  lemma SameTreeWalks(s: State, r: State, d: nat, name: Name)
    requires Renames(s, r, d, name) && TreeOf(r) == TreeOf(s)
    ensures forall p :: ByPath(r, p) == ByPath(s, p)
  {
    forall f: nat | UsedDir(s, f) ensures UsedDir(r, f) { DirUsed(r, f); }
    RootUsed(s);
    forall p ensures ByPath(r, p) == ByPath(s, p) { SameTreeWalk(s, r, ROOT, p); }
  }

  // ---------- no directory changes ----------

  /** A record written into a file changes no directory: no path leads anywhere else. */
  lemma IntoFilePaths(s: State, r: State)
    requires Inv(s) && Navigable(s) && DirsKept(s, r) && ModesKept(s, r)
    requires forall m :: 0 <= m < |r.inodes| && IsDir(r.inodes[m].mode) ==> UsedDir(s, m)
    ensures Navigable(r) && TreeOf(r) == TreeOf(s)
    ensures forall p :: ByPath(r, p) == ByPath(s, p)
  {
    forall f: nat | UsedDir(s, f) ensures DirOk(s, f) && DirOk(r, f) && DirEntries(r, f) == DirEntries(s, f) {
      assert DirSound(s, f);
      SameEntries(s, r, f);
    }
    forall f: nat, m: Name ensures Edge(r, f, m) == Edge(s, f, m) {}
    SameEdges(s, r);
    forall p ensures ByPath(r, p) == ByPath(s, p) { SameTreeWalk(s, r, ROOT, p); }
  }

  lemma {:induction false} SameTreeWalk(s: State, r: State, inode: nat, p: Path)
    requires Inv(s) && Navigable(s) && Navigable(r) && ModesKept(s, r) && TreeOf(r) == TreeOf(s)
    requires forall f: nat :: UsedDir(s, f) ==> UsedDir(r, f)
    requires InUse(s, inode)
    ensures WalkPath(r, inode, p) == WalkPath(s, inode, p)
    decreases |p|
  {
    if Shift(p).Some? {
      var (c, rest) := Shift(p).value;
      if IsDir(s.inodes[inode].mode) {
        LookupInside(s, inode, c);
        LookupInside(r, inode, c);
        EdgeOf(s, inode, c);
        EdgeOf(r, inode, c);
        if Lookup(s, inode, c).Some? {
          LookupUsed(s, inode, c);
          SameTreeWalk(s, r, Lookup(s, inode, c).value, rest);
        }
      } else {
        SameTreeWalk(s, r, inode, rest);
      }
    }
  }

  lemma FilesStay(s: State, r: State)
    requires Inv(s) && |r.inodes| == |s.inodes|
    requires forall m :: 0 <= m < |s.inodes| ==> r.inodes[m].mode == s.inodes[m].mode
    ensures forall m :: 0 <= m < |r.inodes| && IsDir(r.inodes[m].mode) ==> UsedDir(s, m)
  {
    forall m | 0 <= m < |r.inodes| && IsDir(r.inodes[m].mode) ensures UsedDir(s, m) { DirUsed(s, m); }
  }
}

/** Where paths lead on a disk that keeps the invariant. */
module PathFacts {
  import opened Options
  import opened Records
  import opened DirBlocks
  import opened DiskState
  import opened Directory
  import opened Invariant
  import opened RemovalProofs
  import opened Paths
  import opened Lookups
  import opened Commands

  lemma InvNavigable(s: State, exact: bool := true)
    requires Inv(s, exact)
    ensures Navigable(s)
  {
    forall d: nat | d < |s.inodes| && IsDir(s.inodes[d].mode)
      ensures DirOk(s, d) && forall e :: e in DirEntries(s, d) ==> e.ino <= |s.inodes|
    {
      assert InodeSound(s, d, exact);
      assert UsedDir(s, d) && DirSound(s, d);
    }
  }

  /** In use, and a directory if it is one of the reserved ones. */
  ghost predicate InUse(s: State, n: nat) { Used(s, n) && (Reserved(n) ==> IsDir(s.inodes[n].mode)) }

  lemma DirUsed(s: State, d: nat, exact: bool := true)
    requires Inv(s, exact) && d < |s.inodes| && IsDir(s.inodes[d].mode)
    ensures UsedDir(s, d) && DirSound(s, d)
  {
    assert InodeSound(s, d, exact);
  }

  lemma LookupUsed(s: State, d: nat, name: Name, exact: bool := true)
    requires Inv(s, exact) && UsedDir(s, d) && DirOk(s, d) && Lookup(s, d, name).Some?
    ensures InUse(s, Lookup(s, d, name).value)
  {
    FindSome(DirEntries(s, d), name);
    var e :| e in DirEntries(s, d) && e.name == name && e.ino == FindIno(DirEntries(s, d), name).value;
    LinksPositive(s, d, e, exact);
  }

  lemma {:induction false} WalkUsed(s: State, inode: nat, p: Path, exact: bool := true)
    requires Inv(s, exact) && Navigable(s) && InUse(s, inode) && WalkPath(s, inode, p).Some?
    ensures InUse(s, WalkPath(s, inode, p).value)
    decreases |p|
  {
    if Shift(p).Some? {
      var (c, rest) := Shift(p).value;
      if IsDir(s.inodes[inode].mode) {
        LookupInside(s, inode, c);
        LookupUsed(s, inode, c, exact);
        WalkUsed(s, Lookup(s, inode, c).value, rest, exact);
      } else {
        WalkUsed(s, inode, rest, exact);
      }
    }
  }

  /** Every path that resolves leads to an inode in use. */
  lemma ByPathUsed(s: State, p: Path, exact: bool := true)
    requires Inv(s, exact) && Navigable(s) && ByPath(s, p).Some?
    ensures InUse(s, ByPath(s, p).value)
  {
    WalkUsed(s, ROOT, p, exact);
  }

  /** A walk that ends at a directory went through directories only. */
  lemma {:induction false} WalkToDir(s: State, inode: nat, p: Path, d: nat)
    requires Navigable(s) && inode < |s.inodes| && WalkPath(s, inode, p) == Some(d) && IsDir(s.inodes[d].mode)
    ensures Resolve(s, inode, Components(p)) == Some(d)
    decreases |p|
  {
    assert WalkPath(s, inode, []) == Some(inode);
    if Shift(p).Some? {
      var (c, rest) := Shift(p).value;
      assert Components(p)[1..] == Components(rest);
      if IsDir(s.inodes[inode].mode) {
        LookupInside(s, inode, c);
        WalkToDir(s, Lookup(s, inode, c).value, rest, d);
      }
    }
  }

  lemma {:induction false} ResolveSnoc(s: State, inode: nat, cs: seq<Name>, name: Name, d: nat)
    requires Navigable(s) && inode < |s.inodes| && Resolve(s, inode, cs) == Some(d)
    ensures IsDir(s.inodes[d].mode) ==> DirOk(s, d) && Resolve(s, inode, cs + [name]) == Lookup(s, d, name)
    ensures !IsDir(s.inodes[d].mode) ==> Resolve(s, inode, cs + [name]) == None
    decreases |cs|
  {
    if cs == [] {
      assert ([] + [name])[1..] == [];
      if IsDir(s.inodes[d].mode) { LookupInside(s, d, name); }
    } else {
      LookupInside(s, inode, cs[0]);
      assert (cs + [name])[1..] == cs[1..] + [name];
      ResolveSnoc(s, Lookup(s, inode, cs[0]).value, cs[1..], name, d);
    }
  }

  /** A path whose last name hangs off a directory is no path through a file. */
  lemma NotThroughFile(s: State, p: Path, cs: seq<Name>, name: Name, d: nat)
    requires Navigable(s) && Components(p) == cs + [name] && Resolve(s, ROOT, cs) == Some(d) && d < |s.inodes|
    requires IsDir(s.inodes[d].mode)
    ensures !ThroughFile(s, ROOT, p)
  {
    assert AllButLast(cs + [name]) == cs;
  }

  /** Nor is one that resolves to the end. */
  lemma ResolvedNotThroughFile(s: State, p: Path, d: nat)
    requires Navigable(s) && Resolve(s, ROOT, Components(p)) == Some(d)
    ensures !ThroughFile(s, ROOT, p)
  {
    var cs := Components(p);
    if cs != [] && Resolve(s, ROOT, AllButLast(cs)).Some? {
      ResolveSnoc(s, ROOT, AllButLast(cs), cs[|cs| - 1], Resolve(s, ROOT, AllButLast(cs)).value);
      assert AllButLast(cs) + [cs[|cs| - 1]] == cs;
    }
  }

  /** If the directory part of a path leads to a directory, the path is one look-up in it. */
  lemma SplitPath(s: State, p: Path, d: nat)
    requires Navigable(s) && SLASH in p && ByPath(s, FilePath(p)) == Some(d) && IsDir(s.inodes[d].mode)
    ensures DirOk(s, d)
    ensures ByPath(s, p) == if FileName(p) == [] then Some(d) else Lookup(s, d, FileName(p))
  {
    ComponentsSplit(p);
    SplitWalk(s, p, FilePath(p), FileName(p), d);
  }

  lemma SplitWalk(s: State, p: Path, dir: Path, name: Name, d: nat)
    requires Navigable(s) && ByPath(s, dir) == Some(d) && IsDir(s.inodes[d].mode)
    requires Components(p) == Components(dir) + (if name == [] then [] else [name])
    ensures DirOk(s, d) && ByPath(s, p) == if name == [] then Some(d) else Lookup(s, d, name)
  {
    var cs := Components(dir);
    WalkToDir(s, ROOT, dir, d);
    ResolveSnoc(s, ROOT, cs, name, d);
    ByPathIsResolve(s, p);
    if name == [] {
      assert cs + [] == cs;
      ResolvedNotThroughFile(s, p, d);
    } else {
      NotThroughFile(s, p, cs, name, d);
    }
  }

  lemma AbsoluteHasSlash(p: Path)
    requires IsAbsolute(p)
    ensures SLASH in p
  {
    assert p[0] == SLASH;
  }

  /** The record that rm acts on names the inode that the path leads to. */
  lemma RmNamesFile(s: State, path: Path, d: nat, name: Name)
    requires Navigable(s) && RmTarget(s, path) == Some((d, name)) && d < |s.inodes| && IsDir(s.inodes[d].mode)
    requires Shaped(s) && Removable(s, d, name) && FindRemoval(s, d, name).Some? && !FirstInBlock(s, d, name)
    ensures ByPath(s, path) == Some(RmInode(s, d, name)) && !IsDir(s.inodes[RmInode(s, d, name)].mode)
  {
    AbsoluteHasSlash(path);
    SplitPath(s, path, d);
    RemovalFinds(s, d, name);
  }

  lemma RemovalFinds(s: State, d: nat, name: Name)
    requires Removable(s, d, name) && FindRemoval(s, d, name).Some? && !FirstInBlock(s, d, name)
    ensures Lookup(s, d, name) == Some(RmInode(s, d, name))
  {
    FindSlotIs(s.blocks, Direct(s.inodes[d].ptr), name);
    var r := FindSlot(s.blocks, Direct(s.inodes[d].ptr), name).value;
    RemovalTarget(s, d, name, r.0, r.1);
  }

  lemma RemovalTarget(s: State, d: nat, name: Name, k: nat, f: nat)
    requires DirOk(s, d) && FindSlot(s.blocks, Direct(s.inodes[d].ptr), name) == Some((k, f)) && f > 0
    ensures FindRemoval(s, d, name).Some? && FindRemoval(s, d, name).value.block == k
    ensures FindRemoval(s, d, name).value.target == f
  {
    BeforeIs(s.blocks[k], f, name);
  }
}

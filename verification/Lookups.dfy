/** inode_by_filepath against the plain meaning of a path: one look-up per component. */
module Lookups {
  import opened Options
  import opened Records
  import opened DirBlocks
  import opened DiskState
  import opened Directory
  import opened Paths

  /** What walking paths relies on: directories are sound and records name inodes of the table. */
  ghost predicate Navigable(s: State) {
    && ROOT < |s.inodes|
    && forall d :: 0 <= d < |s.inodes| && IsDir(s.inodes[d].mode) ==>
         DirOk(s, d) && forall e :: e in DirEntries(s, d) ==> e.ino <= |s.inodes|
  }

  lemma LookupInside(s: State, d: nat, name: Name)
    requires Navigable(s) && d < |s.inodes| && IsDir(s.inodes[d].mode)
    ensures DirOk(s, d) && (Lookup(s, d, name).Some? ==> Lookup(s, d, name).value < |s.inodes|)
  {
    if FindIno(DirEntries(s, d), name).Some? { FindSome(DirEntries(s, d), name); }
  }

  /**
   * The walk of the program from `inode`.  At an inode that is no directory it gives up only if
   * text is left after the component; otherwise it skips the component and stays.
   */
  ghost function WalkPath(s: State, inode: nat, p: Path): (r: Option<nat>)
    requires Navigable(s) && inode < |s.inodes|
    ensures r.Some? ==> r.value < |s.inodes|
    decreases |p|
  {
    match Shift(p)
    case None => Some(inode)
    case Some((c, rest)) =>
      if IsDir(s.inodes[inode].mode) then
        LookupInside(s, inode, c);
        match Lookup(s, inode, c)
        case None => None
        case Some(n) => WalkPath(s, n, rest)
      else if rest != [] then None
      else WalkPath(s, inode, rest)
  }

  /** What one component does: a look-up, or nothing if it is the end of the text and no directory is there. */
  ghost function WalkOne(s: State, inode: nat, name: Name, more: bool): Option<nat>
    requires Navigable(s) && inode < |s.inodes|
  {
    if IsDir(s.inodes[inode].mode) then Lookup(s, inode, name)
    else if more then None
    else Some(inode)
  }

  lemma WalkByOne(s: State, inode: nat, p: Path)
    requires Navigable(s) && inode < |s.inodes| && Shift(p).Some?
    ensures var (c, rest) := Shift(p).value;
            match WalkOne(s, inode, c, rest != [])
            case None => WalkPath(s, inode, p) == None
            case Some(n) => n < |s.inodes| && WalkPath(s, inode, p) == WalkPath(s, n, rest)
  {
    if IsDir(s.inodes[inode].mode) { LookupInside(s, inode, Shift(p).value.0); }
  }

  ghost function ByPath(s: State, p: Path): (r: Option<nat>)
    requires Navigable(s)
    ensures r.Some? ==> r.value < |s.inodes|
  { WalkPath(s, ROOT, p) }

  /** What a list of names means: look each one up in the directory the ones before lead to. */
  ghost function Resolve(s: State, inode: nat, cs: seq<Name>): (r: Option<nat>)
    requires Navigable(s) && inode < |s.inodes|
    ensures r.Some? ==> r.value < |s.inodes|
    decreases |cs|
  {
    if cs == [] then Some(inode)
    else if !IsDir(s.inodes[inode].mode) then None
    else
      LookupInside(s, inode, cs[0]);
      match Lookup(s, inode, cs[0])
      case None => None
      case Some(n) => Resolve(s, n, cs[1..])
  }

  /** Everything but the last name leads to an inode that is no directory, and nothing but one slash follows. */
  ghost predicate ThroughFile(s: State, inode: nat, p: Path)
    requires Navigable(s) && inode < |s.inodes|
  {
    && Components(p) != [] && !TwoSlashesEnd(p)
    && var m := Resolve(s, inode, AllButLast(Components(p)));
       m.Some? && !IsDir(s.inodes[m.value].mode)
  }

  function AllButLast(cs: seq<Name>): seq<Name>
    requires cs != []
  { cs[..|cs| - 1] }

  predicate TwoSlashesEnd(p: Path) { |p| >= 2 && p[|p| - 1] == SLASH && p[|p| - 2] == SLASH }

  lemma {:induction false} SkipIsSuffix(p: Path)
    ensures SkipSlashes(p) == p[|p| - |SkipSlashes(p)|..]
  {
    if p != [] && p[0] == SLASH {
      SkipIsSuffix(p[1..]);
      assert p[1..][|p[1..]| - |SkipSlashes(p)|..] == p[|p| - |SkipSlashes(p)|..];
    }
  }

  /** The text after a component ends like the whole path, unless the component is the last one. */
  lemma ShiftEnd(p: Path)
    requires Shift(p).Some?
    ensures var rest := Shift(p).value.1;
            && (Components(rest) != [] ==> (TwoSlashesEnd(p) <==> TwoSlashesEnd(rest)))
            && (Components(rest) == [] ==> (TwoSlashesEnd(p) <==> rest != []))
  {
    var q := SkipSlashes(p);
    SkipIsSuffix(p);
    SuffixEnds(p, q);
    CutEnds(q, FirstSlash(q), Shift(p).value.1);
  }

  lemma SuffixEnds(p: Path, q: Path)
    requires 0 < |q| <= |p| && q == p[|p| - |q|..] && q[0] != SLASH
    ensures TwoSlashesEnd(p) <==> TwoSlashesEnd(q)
  {
    assert p[|p| - 1] == q[|q| - 1];
    if |q| >= 2 { assert p[|p| - 2] == q[|q| - 2]; }
  }

  lemma CutEnds(q: Path, i: nat, rest: Path)
    requires q != [] && q[0] != SLASH && i == FirstSlash(q) && rest == if i < |q| then q[i + 1..] else []
    ensures Components(rest) != [] ==> (TwoSlashesEnd(q) <==> TwoSlashesEnd(rest))
    ensures Components(rest) == [] ==> (TwoSlashesEnd(q) <==> rest != [])
  {
    assert q[i - 1] != SLASH by { assert q[..i][i - 1] == q[i - 1]; }
    if rest != [] {
      assert rest[|rest| - 1] == q[|q| - 1];
      if |rest| >= 2 { assert rest[|rest| - 2] == q[|q| - 2]; }
      if Components(rest) == [] { AllSlashes(rest); } else if |rest| == 1 { OneNotSlash(rest); }
    }
  }

  lemma {:induction false} AllSlashes(p: Path)
    requires Components(p) == []
    ensures forall j :: 0 <= j < |p| ==> p[j] == SLASH
  {
    if p != [] {
      assert p[0] == SLASH;
      SlashFirst(p);
      AllSlashes(p[1..]);
      assert forall j :: 1 <= j < |p| ==> p[j] == p[1..][j - 1];
    }
  }

  lemma OneNotSlash(p: Path)
    requires |p| == 1 && Components(p) != []
    ensures p[0] != SLASH
  {
    if p[0] == SLASH { SlashFirst(p); }
  }

  lemma AllButLastOf(c: Name, ds: seq<Name>)
    requires ds != []
    ensures AllButLast([c] + ds)[0] == c && AllButLast([c] + ds)[1..] == AllButLast(ds)
  {
  }

  /** At an inode that is no directory. */
  lemma WalkAtFile(s: State, inode: nat, p: Path)
    requires Navigable(s) && inode < |s.inodes| && Shift(p).Some? && !IsDir(s.inodes[inode].mode)
    ensures WalkPath(s, inode, p) == Resolve(s, inode, Components(p)) <==> !ThroughFile(s, inode, p)
    ensures ThroughFile(s, inode, p) ==> WalkPath(s, inode, p) == Resolve(s, inode, AllButLast(Components(p)))
  {
    var (c, rest) := Shift(p).value;
    ShiftEnd(p);
    assert WalkPath(s, inode, []) == Some(inode);
    assert Components([]) == [];
    if Components(rest) != [] { AllButLastOf(c, Components(rest)); }
  }

  /**
   * The walk means the same as the component-wise look-up exactly when the path does not lead
   * through a file at its last step; there the program answers with the file itself.
   */
  lemma {:induction false} WalkIsResolve(s: State, inode: nat, p: Path)
    requires Navigable(s) && inode < |s.inodes|
    ensures WalkPath(s, inode, p) == Resolve(s, inode, Components(p)) <==> !ThroughFile(s, inode, p)
    ensures ThroughFile(s, inode, p) ==> WalkPath(s, inode, p) == Resolve(s, inode, AllButLast(Components(p)))
    decreases |p|
  {
    if Shift(p).Some? && IsDir(s.inodes[inode].mode) {
      var (c, rest) := Shift(p).value;
      var cs, ds := Components(p), Components(rest);
      assert cs == [c] + ds && cs[1..] == ds && cs[0] == c;
      ShiftEnd(p);
      LookupInside(s, inode, c);
      if ds != [] { AllButLastOf(c, ds); }
      if Lookup(s, inode, c).Some? {
        WalkIsResolve(s, Lookup(s, inode, c).value, rest);
      }
    } else if Shift(p).Some? {
      WalkAtFile(s, inode, p);
    }
  }

  lemma ByPathIsResolve(s: State, p: Path)
    requires Navigable(s)
    ensures ByPath(s, p) == Resolve(s, ROOT, Components(p)) <==> !ThroughFile(s, ROOT, p)
  {
    WalkIsResolve(s, ROOT, p);
  }
}

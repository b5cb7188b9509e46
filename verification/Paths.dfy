/** Paths: splitting off the last name, joining, trimming, and taking components one by one. */
module Paths {
  import opened Options
  import opened Bytes
  import opened Records

  type Path = seq<Byte>

  const SLASH: Byte := 47
  const DOT: Byte := 46

  predicate IsAbsolute(p: Path) { p != [] && p[0] == SLASH }

  /** The position of the last slash, or -1. */
  function LastSlash(p: Path): (i: int)
    ensures -1 <= i < |p| && (i >= 0 ==> p[i] == SLASH)
    ensures forall j :: i < j < |p| ==> p[j] != SLASH
  {
    if p == [] then -1
    else if p[|p| - 1] == SLASH then |p| - 1
    else LastSlash(p[..|p| - 1])
  }

  function FilePath(p: Path): Path { p[..if LastSlash(p) < 0 then 0 else LastSlash(p)] }

  function FileName(p: Path): Name { p[LastSlash(p) + 1..] }

  function Join(a: Path, b: Path): Path { a + [SLASH] + b }

  function Trim(p: Path): (r: Path)
    ensures r <= p && (p != [] ==> r != []) && (r == [SLASH] || r == [] || r[|r| - 1] != SLASH)
  {
    if |p| > 1 && p[|p| - 1] == SLASH then Trim(p[..|p| - 1]) else p
  }

  /** Splitting and joining again gives back the path exactly when there was a slash to split at. */
  lemma JoinSplit(p: Path)
    ensures Join(FilePath(p), FileName(p)) == p <==> SLASH in p
    ensures SLASH !in FileName(p)
  {
    if LastSlash(p) >= 0 {
      assert p == p[..LastSlash(p)] + [SLASH] + p[LastSlash(p) + 1..];
    } else {
      assert forall j :: 0 <= j < |p| ==> p[j] != SLASH;
      assert |Join(FilePath(p), FileName(p))| == |p| + 1;
    }
  }

  lemma {:induction false} LastSlashIs(p: Path, i: nat)
    requires i < |p| && p[i] == SLASH && SLASH !in p[i + 1..]
    ensures LastSlash(p) == i
    decreases |p|
  {
    if i < |p| - 1 {
      assert p[|p| - 1] == p[i + 1..][|p| - i - 2];
      assert p[..|p| - 1][i + 1..] == p[i + 1..][..|p| - i - 2];
      LastSlashIs(p[..|p| - 1], i);
    }
  }

  /** Splitting undoes joining if the name has no slash. */
  lemma SplitJoin(a: Path, name: Name)
    requires SLASH !in name
    ensures FilePath(Join(a, name)) == a && FileName(Join(a, name)) == name
  {
    assert Join(a, name)[|a| + 1..] == name;
    LastSlashIs(Join(a, name), |a|);
  }

  /** After trimming, the last name is empty only for a path of slashes alone. */
  lemma {:induction false} TrimmedName(p: Path)
    requires IsAbsolute(p)
    ensures IsAbsolute(Trim(p)) && (FileName(Trim(p)) == [] <==> forall j :: 0 <= j < |p| ==> p[j] == SLASH)
  {
    if |p| > 1 && p[|p| - 1] == SLASH {
      TrimmedName(p[..|p| - 1]);
    } else if |p| == 1 {
      assert LastSlash(p) == 0;
    } else {
      assert LastSlash(p) < |p| - 1;
    }
  }

  // ---------- components ----------

  function SkipSlashes(p: Path): (r: Path)
    ensures |r| <= |p| && (r != [] ==> r[0] != SLASH)
  {
    if p != [] && p[0] == SLASH then SkipSlashes(p[1..]) else p
  }

  function FirstSlash(p: Path): (i: nat)
    ensures i <= |p| && (i < |p| ==> p[i] == SLASH) && SLASH !in p[..i]
    ensures p != [] && p[0] != SLASH ==> i > 0
  {
    if p == [] || p[0] == SLASH then 0
    else
      assert p[..FirstSlash(p[1..]) + 1] == [p[0]] + p[1..][..FirstSlash(p[1..])];
      FirstSlash(p[1..]) + 1
  }

  /** The next component and what follows it; stepping past the end leaves nothing. */
  function Shift(p: Path): (r: Option<(Name, Path)>)
    ensures r.Some? ==> r.value.0 != [] && SLASH !in r.value.0 && |r.value.1| < |p|
  {
    var q := SkipSlashes(p);
    if q == [] then None
    else
      var i := FirstSlash(q);
      Some((q[..i], if i < |q| then q[i + 1..] else []))
  }

  function Components(p: Path): seq<Name>
    decreases |p|
  {
    match Shift(p)
    case None => []
    case Some((c, rest)) => [c] + Components(rest)
  }

  lemma {:induction false} FirstSlashIs(p: Path, i: nat)
    requires i <= |p| && SLASH !in p[..i] && (i < |p| ==> p[i] == SLASH)
    ensures FirstSlash(p) == i
  {
    if i > 0 {
      assert p[..i][0] == p[0];
      assert p[1..][..i - 1] == p[..i][1..];
      FirstSlashIs(p[1..], i - 1);
    }
  }

  lemma ShiftAppend(p: Path, t: Path)
    requires p != [] && p[0] != SLASH && t != [] && t[0] == SLASH
    ensures var r, i := Shift(p + t), FirstSlash(p);
            r.Some? && r.value.0 == p[..i] && r.value.1 == (if i < |p| then p[i + 1..] + t else t[1..])
  {
    var i := FirstSlash(p);
    AppendPrefix(p, t, i);
    AppendRest(p, t, i);
    FirstSlashIs(p + t, i);
    ShiftAt(p + t, i);
  }

  lemma AppendPrefix(p: Path, t: Path, i: nat)
    requires p != [] && t != [] && i <= |p|
    ensures |p + t| > i && (p + t)[..i] == p[..i] && (p + t)[0] == p[0]
    ensures (p + t)[i] == if i < |p| then p[i] else t[0]
  {
  }

  lemma ShiftAt(w: Path, i: nat)
    requires w != [] && w[0] != SLASH && i == FirstSlash(w) < |w|
    ensures Shift(w) == Some((w[..i], w[i + 1..]))
  {
    assert SkipSlashes(w) == w;
  }

  lemma AppendRest(p: Path, t: Path, i: nat)
    requires i <= |p| && t != []
    ensures (p + t)[i + 1..] == if i < |p| then p[i + 1..] + t else t[1..]
  {
  }

  /** The components of a path that goes on after a slash. */
  lemma {:induction false} ComponentsAppend(p: Path, t: Path)
    requires t != [] && t[0] == SLASH
    ensures Components(p + t) == Components(p) + Components(t)
    decreases |p|
  {
    if p == [] {
      assert p + t == t;
    } else if p[0] == SLASH {
      assert (p + t)[1..] == p[1..] + t;
      ComponentsAppend(p[1..], t);
      SlashFirst(p);
      SlashFirst(p + t);
    } else {
      ShiftAppend(p, t);
      var i := FirstSlash(p);
      if i < |p| {
        ComponentsAppend(p[i + 1..], t);
        ConcatAssoc([p[..i]], Components(p[i + 1..]), Components(t));
      } else {
        SlashFirst(t);
        assert Components(p) == [p[..i]];
      }
    }
  }

  lemma ComponentsJoin(p: Path, q: Path)
    ensures Components(Join(p, q)) == Components(p) + Components(q)
  {
    ConcatAssoc(p, [SLASH], q);
    ComponentsAppend(p, [SLASH] + q);
    SlashFirst([SLASH] + q);
    assert ([SLASH] + q)[1..] == q;
  }

  lemma SlashFirst(p: Path)
    requires p != [] && p[0] == SLASH
    ensures Components(p) == Components(p[1..])
  {
    assert SkipSlashes(p) == SkipSlashes(p[1..]);
  }

  /** The components of a path are those of its directory part, then its name unless that is empty. */
  lemma ComponentsSplit(p: Path)
    requires SLASH in p
    ensures Components(p) == Components(FilePath(p)) + (if FileName(p) == [] then [] else [FileName(p)])
  {
    JoinSplit(p);
    ComponentsJoin(FilePath(p), FileName(p));
    SingleComponent(FileName(p));
  }

  lemma SingleComponent(n: Name)
    requires SLASH !in n
    ensures Components(n) == if n == [] then [] else [n]
  {
    if n != [] {
      assert n[0] != SLASH;
      FirstSlashIs(n, |n|);
      assert n[..|n|] == n;
    }
  }

  lemma {:induction false} TrimComponents(p: Path)
    ensures Components(Trim(p)) == Components(p)
  {
    if |p| > 1 && p[|p| - 1] == SLASH {
      var q := p[..|p| - 1];
      assert p == Join(q, []);
      ComponentsJoin(q, []);
      TrimComponents(q);
    }
  }
}

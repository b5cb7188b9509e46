/** The path routines as the program runs them: on buffers that end in a zero byte. */
module PathBuffers {
  import opened Options
  import opened Bytes
  import opened Records
  import opened Writing
  import opened Paths

  lemma CStringIs(bs: seq<Byte>, n: nat)
    requires n < |bs| && bs[n] == 0 && 0 !in bs[..n]
    ensures CString(bs) == bs[..n]
  {
    var c := CString(bs);
    assert forall j :: 0 <= j < |c| ==> bs[j] == c[j] && c[j] in c;
    if |c| < n { CStringEnds(bs); }
  }

  lemma {:induction false} CStringEnds(bs: seq<Byte>)
    requires |CString(bs)| < |bs|
    ensures bs[|CString(bs)|] == 0
  {
    if bs[0] != 0 { CStringEnds(bs[1..]); }
  }

  method StrLen(a: array<Byte>) returns (n: nat)
    requires 0 in a[..]
    ensures n < a.Length && a[n] == 0 && 0 !in a[..n] && CString(a[..]) == a[..n]
  {
    n := 0;
    ghost var end :| 0 <= end < a.Length && a[end] == 0;
    while a[n] != 0
      invariant n <= end && 0 !in a[..n]
      decreases end - n
    {
      n := n + 1;
      assert a[..n] == a[..n - 1] + [a[n - 1]];
    }
    CStringIs(a[..], n);
  }

  /** Cuts slashes off the end in place, but not the first one. */
  method TrimTrailingSlash(path: array<Byte>)
    requires 0 in path[..] && CString(path[..]) != []
    modifies path
    ensures 0 in path[..] && CString(path[..]) == Trim(old(CString(path[..])))
  {
    var len := StrLen(path);
    ghost var text := path[..len];
    ghost var p := text;
    while len != 1 && path[len - 1] == SLASH
      invariant 1 <= len < path.Length && path[len] == 0 && path[..len] == p && 0 !in p
      invariant Trim(p) == Trim(text)
    {
      TrimStep(p);
      path[len - 1] := 0;
      len := len - 1;
      p := p[..len];
    }
    TrimEnds(p);
    TextOf(path[..], p);
  }

  lemma TrimEnds(p: Path)
    requires |p| > 1 ==> p[|p| - 1] != SLASH
    ensures Trim(p) == p
  {
  }

  lemma TrimStep(p: Path)
    requires |p| > 1 && p[|p| - 1] == SLASH
    ensures Trim(p) == Trim(p[..|p| - 1])
  {
  }

  lemma TextOf(bs: seq<Byte>, p: Path)
    requires |p| < |bs| && bs[|p|] == 0 && bs[..|p|] == p && 0 !in p
    ensures 0 in bs && CString(bs) == p
  {
    CStringIs(bs, |p|);
  }

  lemma LastSlashIs(p: Path, i: int)
    requires -1 <= i < |p| && (i >= 0 ==> p[i] == SLASH) && forall j :: i < j < |p| ==> p[j] != SLASH
    ensures LastSlash(p) == i
  {
  }

  /** A copy cut off at its last slash. */
  method GetFilepath(abspath: array<Byte>) returns (filepath: array<Byte>)
    requires 0 in abspath[..]
    ensures fresh(filepath) && 0 in filepath[..] && CString(filepath[..]) == FilePath(CString(abspath[..]))
  {
    var i := StrLen(abspath);
    ghost var text := abspath[..i];
    filepath := new Byte[i + 1](j requires 0 <= j < i + 1 && i < abspath.Length reads abspath => abspath[j]);
    assert filepath[..i] == text;
    while i > 0 && filepath[i] != SLASH
      invariant 0 <= i <= |text| && filepath[..|text|] == text && filepath[|text|] == 0
      invariant forall j :: i < j < |text| ==> text[j] != SLASH
    {
      i := i - 1;
    }
    LastSlashIs(text, if i < |text| && text[i] == SLASH then i else -1);
    filepath[i] := 0;
    assert filepath[..i] == text[..i];
    CStringIs(filepath[..], i);
    assert filepath[i] in filepath[..];
  }

  /** Where the last name starts. */
  method GetFilename(abspath: array<Byte>) returns (start: nat)
    requires 0 in abspath[..]
    ensures start < abspath.Length && CString(abspath[start..]) == FileName(CString(abspath[..]))
  {
    var i: int := StrLen(abspath);
    ghost var text := abspath[..i];
    while i >= 0 && abspath[i] != SLASH
      invariant -1 <= i <= |text| < abspath.Length
      invariant forall j :: i < j < |text| ==> text[j] != SLASH
    {
      i := i - 1;
    }
    LastSlashIs(text, i);
    start := i + 1;
    CStringTail(abspath[..], |text|, start);
    assert abspath[start..] == abspath[..][start..];
  }

  lemma CStringTail(bs: seq<Byte>, n: nat, start: nat)
    requires start <= n < |bs| && bs[n] == 0 && 0 !in bs[..n]
    ensures CString(bs[start..]) == bs[..n][start..]
  {
    assert bs[start..][..n - start] == bs[..n][start..];
    CStringIs(bs[start..], n - start);
  }

  lemma ShiftAtEnd(text: Path)
    requires SkipSlashes(text) == []
    ensures Paths.Shift(text) == None
  {
  }

  lemma ShiftIs(text: Path, q: Path, i: nat)
    requires q == SkipSlashes(text) && q != [] && i == FirstSlash(q)
    ensures i <= |q| && Paths.Shift(text) == Some((q[..i], if i < |q| then q[i + 1..] else []))
  {
  }

  /** A path being taken apart, as the pair of a buffer and a pointer into it. */
  class PathCursor {
    const buf: array<Byte>
    var pos: nat

    ghost predicate Valid()
      reads this, buf
    {
      && 0 < buf.Length && pos <= buf.Length && buf[buf.Length - 1] == 0
      && forall j :: pos <= j < buf.Length - 1 ==> buf[j] != 0
    }

    /** The text ahead; a pointer past the terminator has none. */
    ghost function Rest(): Path
      reads this, buf
      requires Valid()
    { if pos < buf.Length then buf[pos..buf.Length - 1] else [] }

    constructor (abspath: Path)
      requires 0 !in abspath
      ensures Valid() && fresh(buf) && Rest() == abspath
    {
      buf := new Byte[|abspath| + 1](j requires 0 <= j <= |abspath| => if j < |abspath| then abspath[j] else 0);
      pos := 0;
    }

    /** No text is left. */
    predicate AtEnd()
      reads this, buf
      requires Valid()
      ensures AtEnd() <==> Rest() == []
    { pos == buf.Length || buf[pos] == 0 }

    /** Steps over the slashes ahead. */
    method Skip()
      requires Valid() && pos < buf.Length
      modifies this`pos
      ensures Valid() && pos < buf.Length && Rest() == SkipSlashes(old(Rest()))
    {
      ghost var text := Rest();
      while buf[pos] == SLASH
        invariant Valid() && pos < buf.Length && SkipSlashes(Rest()) == SkipSlashes(text)
        decreases buf.Length - pos
      {
        assert Rest()[0] == SLASH && Rest()[1..] == buf[pos + 1..buf.Length - 1];
        pos := pos + 1;
      }
    }

    /** The length of the component ahead. */
    method Measure() returns (i: nat)
      requires Valid() && pos < buf.Length - 1
      ensures i == FirstSlash(Rest()) && pos + i < buf.Length && buf[pos..pos + i] == Rest()[..i]
    {
      ghost var q := Rest();
      i := 0;
      while buf[pos + i] != SLASH && buf[pos + i] != 0
        invariant i <= |q| && SLASH !in q[..i]
        decreases |q| - i
      {
        assert q[..i + 1] == q[..i] + [q[i]];
        i := i + 1;
      }
      FirstSlashIs(q, i);
      assert buf[pos..pos + i] == q[..i];
    }

    /** Ends the text after `i` characters and moves past the end. */
    method Cut(i: nat)
      requires Valid() && pos < buf.Length && i <= |Rest()|
      modifies this`pos, buf
      ensures Valid() && Rest() == if i < |old(Rest())| then old(Rest())[i + 1..] else []
    {
      buf[pos + i] := 0;
      pos := pos + i + 1;
    }

    /** shift_filepath: the next component, ended in the buffer by a zero byte over its slash. */
    method Shift() returns (r: Option<Name>)
      requires Valid()
      modifies this`pos, buf
      ensures Valid()
      ensures match Paths.Shift(old(Rest()))
              case None => r == None
              case Some((name, rest)) => r == Some(name) && Rest() == rest
    {
      if pos == buf.Length {
        return None;
      }
      ghost var text := Rest();
      Skip();
      ghost var q := Rest();
      if buf[pos] == 0 {
        assert AtEnd();
        ShiftAtEnd(text);
        return None;
      }
      var i := Measure();
      r := Some(buf[pos..pos + i]);
      Cut(i);
      ShiftIs(text, q, i);
    }
  }
}

/**
 * The scans over one directory block, and the two edits of its chain: putting a record into the
 * slack of another, and unlinking a record.
 */
module DirBlocks {
  import opened Options
  import opened Bytes
  import opened Records

  // ---------- look-up by name ----------

  /** The inode number of the first record called `name`; a blank record answers 0. */
  ghost function FindIno(es: seq<Entry>, name: Name): Option<nat> {
    if es == [] then None
    else if es[0].name == name then Some(es[0].ino)
    else FindIno(es[1..], name)
  }

  lemma {:induction false} FindConcat(a: seq<Entry>, b: seq<Entry>, name: Name)
    ensures FindIno(a + b, name) == if FindIno(a, name).Some? then FindIno(a, name) else FindIno(b, name)
  {
    if a == [] {
      assert a + b == b;
    } else {
      FindConcat(a[1..], b, name);
      assert (a + b)[1..] == a[1..] + b;
    }
  }

  lemma {:induction false} FindNone(es: seq<Entry>, name: Name)
    ensures FindIno(es, name) == None <==> forall e :: e in es ==> e.name != name
  {
    if es != [] {
      FindNone(es[1..], name);
      assert es == [es[0]] + es[1..];
    }
  }

  lemma {:induction false} FindSome(es: seq<Entry>, name: Name)
    requires FindIno(es, name).Some?
    ensures exists e :: e in es && e.name == name && e.ino == FindIno(es, name).value
  {
    if es[0].name == name {
      assert es[0] in es;
    } else {
      FindSome(es[1..], name);
    }
  }

  /** The offset of the first record called `name` in the chain from `o`. */
  ghost function FindName(b: Block, o: nat, name: Name): Option<nat>
    requires Chain(b, o, BLOCK_SIZE)
    decreases BLOCK_SIZE - o, b
  {
    if o == BLOCK_SIZE then None
    else if NameOf(b, o) == name then Some(o)
    else FindName(b, o + RecLen(b, o), name)
  }

  lemma {:induction false} FindNameSome(b: Block, o: nat, name: Name)
    requires Chain(b, o, BLOCK_SIZE) && FindName(b, o, name).Some?
    ensures var f := FindName(b, o, name).value;
            && o <= f && RecOk(b, f) && NameOf(b, f) == name
            && Chain(b, o, f) && Chain(b, f + RecLen(b, f), BLOCK_SIZE)
            && FindIno(Entries(b, o, f), name) == None
            && FindIno(Entries(b, o, BLOCK_SIZE), name) == Some(Ino(b, f))
    decreases BLOCK_SIZE - o
  {
    if NameOf(b, o) != name {
      FindNameSome(b, o + At(b, o).len, name);
    }
  }

  lemma {:induction false} FindNameNone(b: Block, o: nat, name: Name)
    requires Chain(b, o, BLOCK_SIZE)
    ensures FindName(b, o, name) == None <==> FindIno(Entries(b, o, BLOCK_SIZE), name) == None
    decreases BLOCK_SIZE - o
  {
    if o < BLOCK_SIZE {
      FindNameNone(b, o + At(b, o).len, name);
    }
  }

  /** The record before the first one called `name`; that record itself when it comes first. */
  ghost function Predecessor(b: Block, o: nat, f: nat): nat
    requires Chain(b, o, f)
    ensures Predecessor(b, o, f) == f || Predecessor(b, o, f) + HEADER <= BLOCK_SIZE
    decreases f - o, b
  {
    if o == f || o + RecLen(b, o) == f then o else Predecessor(b, o + RecLen(b, o), f)
  }

  lemma {:induction false} PredecessorIs(b: Block, o: nat, f: nat)
    requires Chain(b, o, f) && o < f
    ensures var p := Predecessor(b, o, f);
            RecOk(b, p) && p + RecLen(b, p) == f && Chain(b, o, p)
    decreases f - o
  {
    if o + RecLen(b, o) != f {
      PredecessorIs(b, o + At(b, o).len, f);
    }
  }

  lemma {:induction false} PredecessorStep(b: Block, o: nat, p: nat, f: nat)
    requires Chain(b, o, p) && RecOk(b, p) && p + RecLen(b, p) == f
    ensures Chain(b, o, f) && Predecessor(b, o, f) == p
    decreases p - o
  {
    if o < p {
      PredecessorStep(b, o + At(b, o).len, p, f);
    }
  }

  method DirEntryByName(b: Block, name: Name) returns (r: Option<nat>)
    requires BlockOk(b)
    ensures r == FindName(b, 0, name)
  {
    var total := 0;
    while total < BLOCK_SIZE
      invariant total <= BLOCK_SIZE && Chain(b, total, BLOCK_SIZE)
      invariant FindName(b, 0, name) == FindName(b, total, name)
    {
      if |name| == NameLen(b, total) && NameOf(b, total) == name {
        return Some(total);
      }
      total := total + RecLen(b, total);
    }
    return None;
  }

  method DirEntryBeforeName(b: Block, name: Name) returns (r: Option<nat>)
    requires BlockOk(b)
    ensures FindName(b, 0, name) == None ==> r == None
    ensures var f := FindName(b, 0, name);
            f.Some? ==> Chain(b, 0, f.value) && r == Some(Predecessor(b, 0, f.value))
  {
    var total, prev := 0, 0;
    while total < BLOCK_SIZE
      invariant prev <= total <= BLOCK_SIZE
      invariant Chain(b, 0, total) && Chain(b, total, BLOCK_SIZE)
      invariant FindName(b, 0, name) == FindName(b, total, name)
      invariant prev == Predecessor(b, 0, total)
    {
      if |name| == NameLen(b, total) && NameOf(b, total) == name {
        return Some(prev);
      }
      PredecessorStep(b, 0, total, total + RecLen(b, total));
      prev, total := total, total + RecLen(b, total);
    }
    return None;
  }

  // ---------- where a new record goes ----------

  /**
   * The scan for the tail.  It adds the length of the record it arrives at, not of the one it
   * leaves, so it may stop before the last record, or run past it and out of the block (None).
   */
  ghost function TailScan(b: Block, o: nat, total: nat): Option<nat>
    requires Chain(b, o, BLOCK_SIZE)
    decreases BLOCK_SIZE - o, b
  {
    if o == BLOCK_SIZE then None
    else if total + RecLen(b, o) < BLOCK_SIZE then
      var next := o + RecLen(b, o);
      assert Chain(b, next, BLOCK_SIZE);
      TailScan(b, next, total + (if next == BLOCK_SIZE then 0 else RecLen(b, next)))
    else Some(o)
  }

  /** The scan may stop at `e` when the block starts with a record of length `first`. */
  ghost predicate Stops(e: Entry, first: nat) { e.off + 2 * e.len >= BLOCK_SIZE + first }

  /**
   * Where the scan ends: at the first record that reaches far enough when its own length is
   * counted twice and the first record's not at all; outside the block if there is none.
   */
  lemma {:induction false} TailScanStops(b: Block, o: nat, total: nat, first: nat)
    requires Chain(b, o, BLOCK_SIZE)
    requires o < BLOCK_SIZE ==> total + first == o + RecLen(b, o)
    ensures var r := TailScan(b, o, total);
            match r
            case None => forall e :: e in Entries(b, o, BLOCK_SIZE) ==> !Stops(e, first)
            case Some(p) =>
              && RecOk(b, p) && Chain(b, o, p) && Chain(b, p + RecLen(b, p), BLOCK_SIZE)
              && Stops(At(b, p), first)
              && forall e :: e in Entries(b, o, p) ==> !Stops(e, first)
    decreases BLOCK_SIZE - o
  {
    if o < BLOCK_SIZE && total + RecLen(b, o) < BLOCK_SIZE {
      var next := o + At(b, o).len;
      TailScanStops(b, next, total + (if next == BLOCK_SIZE then 0 else RecLen(b, next)), first);
    }
  }

  lemma TailOnChain(b: Block)
    requires BlockOk(b) && TailScan(b, 0, 0).Some?
    ensures var p := TailScan(b, 0, 0).value;
            RecOk(b, p) && Chain(b, 0, p) && Chain(b, p + RecLen(b, p), BLOCK_SIZE)
  {
    TailScanStops(b, 0, 0, RecLen(b, 0));
  }

  /** A scan of a chain whose last record is at least as long as its first ends inside the block. */
  lemma {:induction false} TailScanStays(b: Block)
    requires BlockOk(b)
    requires var es := Live(b); es[|es| - 1].len >= es[0].len
    ensures TailScan(b, 0, 0).Some?
  {
    TailScanStops(b, 0, 0, RecLen(b, 0));
    LastEntry(b, 0);
    assert Live(b)[|Live(b)| - 1] in Live(b);
  }

  lemma {:induction false} LastEntry(b: Block, o: nat)
    requires Chain(b, o, BLOCK_SIZE) && o < BLOCK_SIZE
    ensures var es := Entries(b, o, BLOCK_SIZE);
            |es| > 0 && es[|es| - 1].off + es[|es| - 1].len == BLOCK_SIZE
    decreases BLOCK_SIZE - o
  {
    if o + RecLen(b, o) < BLOCK_SIZE {
      LastEntry(b, o + At(b, o).len);
    }
  }

  method FindTail(b: Block) returns (p: nat)
    requires BlockOk(b) && TailScan(b, 0, 0).Some?
    ensures Some(p) == TailScan(b, 0, 0)
  {
    p := 0;
    var total: nat := 0;
    while total + RecLen(b, p) < BLOCK_SIZE
      invariant p < BLOCK_SIZE && Chain(b, p, BLOCK_SIZE)
      invariant TailScan(b, 0, 0) == TailScan(b, p, total)
      decreases BLOCK_SIZE - p
    {
      p := p + RecLen(b, p);
      total := total + RecLen(b, p);
    }
  }

  // ---------- the two edits ----------

  /** The five stores that fill in a record, in the order of the program. */
  function WriteRecord(b: Block, o: nat, ino: nat, len: nat, name: Name, ft: Byte): Block
    requires |name| < 0x100 && o + HEADER + |name| <= BLOCK_SIZE
    requires ino < 0x1_0000_0000 && len < 0x1_0000
  {
    var b1 := PutBytes(b, o + HEADER, name);
    var b2 := Put32(b1[o + 6 := |name|], o, ino);
    Put16(b2[o + 7 := ft], o + 4, len)
  }

  lemma WriteRecordAt(b: Block, o: nat, ino: nat, len: nat, name: Name, ft: Byte)
    requires |name| < 0x100 && o + HEADER + |name| <= BLOCK_SIZE
    requires ino < 0x1_0000_0000 && len < 0x1_0000
    ensures var b' := WriteRecord(b, o, ino, len, name, ft);
            && At(b', o) == Entry(o, ino, len, name, ft)
            && Agree(b, b', 0, o) && Agree(b, b', o + HEADER + |name|, BLOCK_SIZE)
  {
    var b1 := PutBytes(b, o + HEADER, name);
    var b2 := Put32(b1[o + 6 := |name|], o, ino);
    var b3 := b2[o + 7 := ft];
    var b' := Put16(b3, o + 4, len);
    PutBytesIs(b, o + HEADER, name);
    Put32Is(b1[o + 6 := |name|], o, ino);
    Put16Is(b3, o + 4, len);
    assert b'[o + HEADER..o + HEADER + |name|] == b1[o + HEADER..o + HEADER + |name|];
    assert Get32(b', o) == Get32(b2, o);
  }

  /** The slack of the record at `p` takes a record with a name of `nameLen` bytes. */
  predicate RoomAt(b: Block, p: nat, nameLen: nat) {
    && p + HEADER <= BLOCK_SIZE && p + RecLen(b, p) <= BLOCK_SIZE
    && MinLen(NameLen(b, p)) + MinLen(nameLen) <= RecLen(b, p)
  }

  function InsertAt(b: Block, p: nat, ino: nat, name: Name, ft: Byte): Block
    requires RoomAt(b, p, |name|) && |name| < 0x100 && ino < 0x1_0000_0000
  {
    var size := MinLen(NameLen(b, p));
    WriteRecord(Put16(b, p + 4, size), p + size, ino, RecLen(b, p) - size, name, ft)
  }

  /** An insertion adds one record right behind the one the scan stops at, and touches no other. */
  lemma InsertLive(b: Block, b': Block, p: nat, e: Entry)
    returns (before: seq<Entry>, x: Entry, after: seq<Entry>)
    requires BlockOk(b) && TailScan(b, 0, 0) == Some(p) && p + HEADER <= BLOCK_SIZE
    requires e.off == p + MinLen(NameLen(b, p)) && e.off + HEADER <= BLOCK_SIZE
    requires SplitAt(b, b', p, MinLen(NameLen(b, p))) && At(b', e.off) == e
    ensures BlockOk(b') && Chain(b, 0, p) && before == Entries(b, 0, p) && x == At(b, p)
    ensures SplitInto(Live(b), Live(b'), before, x, e, after)
  {
    TailOnChain(b);
    before, x, after := SplitRecord(b, b', p, e);
  }

  lemma InsertSplits(b: Block, p: nat, ino: nat, name: Name, ft: Byte)
    requires RecOk(b, p) && RoomAt(b, p, |name|) && |name| < 0x100 && ino < 0x1_0000_0000
    ensures var b' := InsertAt(b, p, ino, name, ft); var m := MinLen(NameLen(b, p));
            SplitAt(b, b', p, m) && At(b', p + m) == Entry(p + m, ino, RecLen(b, p) - m, name, ft)
  {
    var m := MinLen(NameLen(b, p));
    var b1 := Put16(b, p + 4, m);
    var b' := InsertAt(b, p, ino, name, ft);
    Put16Is(b, p + 4, m);
    WriteRecordAt(b1, p + m, ino, RecLen(b, p) - m, name, ft);
    SplitBy(b, b1, b', p, m, Entry(p + m, ino, RecLen(b, p) - m, name, ft));
  }

  lemma SplitBy(b: Block, b1: Block, b': Block, p: nat, m: nat, e: Entry)
    requires RecOk(b, p) && m == MinLen(NameLen(b, p)) && m + MinLen(|e.name|) <= RecLen(b, p)
    requires e.off == p + m && e.len == RecLen(b, p) - m && At(b', p + m) == e
    requires Get16(b1, p + 4) == m && forall i :: 0 <= i < BLOCK_SIZE && !(p + 4 <= i < p + 6) ==> b1[i] == b[i]
    requires Agree(b1, b', 0, p + m) && Agree(b1, b', p + m + HEADER + |e.name|, BLOCK_SIZE)
    ensures SplitAt(b, b', p, m)
  {
    RecAt(b', p + m, e);
    assert RecLen(b', p) == m;
  }

  lemma RecAt(b: Block, o: nat, e: Entry)
    requires o + HEADER <= BLOCK_SIZE && At(b, o) == e && MinLen(|e.name|) <= e.len && o + e.len <= BLOCK_SIZE
    requires o + HEADER + NameLen(b, o) <= BLOCK_SIZE
    ensures RecOk(b, o) && RecLen(b, o) == e.len
  {
  }

  /** dir_entry_rm_next: the record at `p` takes over the length of its successor. */
  function Unlink(b: Block, p: nat): Block
    requires p + HEADER <= BLOCK_SIZE && p + RecLen(b, p) + HEADER <= BLOCK_SIZE
  {
    Put16(b, p + 4, U16(RecLen(b, p) + RecLen(b, p + RecLen(b, p))))
  }

  lemma UnlinkMerges(b: Block, p: nat, f: nat)
    requires RecOk(b, p) && f == p + RecLen(b, p) && RecOk(b, f)
    ensures MergeAt(b, Unlink(b, p), p, f)
  {
    Put16Is(b, p + 4, U16(RecLen(b, p) + RecLen(b, f)));
  }

  /** Unlinking a record removes it and leaves every other one where it was. */
  lemma UnlinkLive(b: Block, p: nat, f: nat)
    requires Chain(b, 0, p) && RecOk(b, p) && f == p + RecLen(b, p) && RecOk(b, f)
    requires Chain(b, f + RecLen(b, f), BLOCK_SIZE)
    ensures BlockOk(b) && BlockOk(Unlink(b, p))
    ensures MergedInto(Live(b), Live(Unlink(b, p)),
                       Entries(b, 0, p), At(b, p), At(b, f), Entries(b, f + RecLen(b, f), BLOCK_SIZE))
  {
    UnlinkMerges(b, p, f);
    MergeRecords(b, Unlink(b, p), p, f);
  }

  // ---------- what the edits do to counts and look-ups ----------

  lemma CountThree(before: seq<Entry>, mid: seq<Entry>, after: seq<Entry>, ino: nat)
    ensures Count(before + mid + after, ino) == Count(before, ino) + Count(mid, ino) + Count(after, ino)
  {
    CountConcat(before + mid, after, ino);
    CountConcat(before, mid, ino);
  }

  lemma CountPair(x: Entry, y: Entry, ino: nat)
    ensures Count([x, y], ino) == Count([x], ino) + Count([y], ino)
  {
    assert [x, y][1..] == [y];
  }

  lemma FindThree(before: seq<Entry>, mid: seq<Entry>, after: seq<Entry>, name: Name)
    ensures FindIno(before + mid + after, name)
         == if FindIno(before, name).Some? then FindIno(before, name)
            else if FindIno(mid, name).Some? then FindIno(mid, name)
            else FindIno(after, name)
  {
    FindConcat(before + mid, after, name);
    FindConcat(before, mid, name);
  }

  lemma FindPair(x: Entry, y: Entry, name: Name)
    ensures FindIno([x, y], name)
         == if x.name == name then Some(x.ino) else if y.name == name then Some(y.ino) else None
  {
    assert [x, y][1..] == [y] && [y][1..] == [];
    assert FindIno([y], name) == if y.name == name then Some(y.ino) else None;
  }
}

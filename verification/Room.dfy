/** When there is room for a record, in plain arithmetic, and what an insertion without room costs. */
module Room {
  import opened Options
  import opened Bytes
  import opened Records
  import opened DirBlocks
  import opened DiskState
  import opened Directory
  import opened Invariant
  import opened Insertion
  import opened Exactness

  /** The bytes of a record: a header of 8 and the name, up to the next multiple of 4 beyond them. */
  function RecordSize(nameLen: nat): nat { (nameLen / 4 + 3) * 4 }

  lemma SizeIs(nameLen: nat)
    ensures MinLen(nameLen) == RecordSize(nameLen)
  {
  }

  /** The tail scan stops at the first record that reaches far enough when its length is counted twice. */
  ghost predicate TailIs(es: seq<Entry>, i: nat) {
    && i < |es| && es[i].off + 2 * es[i].len >= 1024 + es[0].len
    && forall j :: 0 <= j < i ==> es[j].off + 2 * es[j].len < 1024 + es[0].len
  }

  /** Behind the record there is room for one with a name of that length. */
  ghost predicate RoomBehind(x: Entry, nameLen: nat) { RecordSize(|x.name|) + RecordSize(nameLen) <= x.len }

  lemma TailIndex(b: Block, p: nat) returns (i: nat)
    requires BlockOk(b) && TailScan(b, 0, 0) == Some(p)
    ensures TailIs(Live(b), i) && RecOk(b, p) && Live(b)[i] == At(b, p)
  {
    TailScanStops(b, 0, 0, RecLen(b, 0));
    BlockAt(b, p, At(b, p));
    var es := Live(b);
    i := |Entries(b, 0, p)|;
    assert es[i] == At(b, p) && es[0] == At(b, 0);
    forall j | 0 <= j < i ensures !Stops(es[j], RecLen(b, 0)) { assert es[j] == Entries(b, 0, p)[j]; }
  }

  lemma RoomAtIff(b: Block, i: nat, nameLen: nat)
    requires BlockOk(b) && TailScan(b, 0, 0).Some? && TailIs(Live(b), i)
    ensures RoomAt(b, TailScan(b, 0, 0).value, nameLen) <==> RoomBehind(Live(b)[i], nameLen)
  {
    var p := TailScan(b, 0, 0).value;
    var t := TailIndex(b, p);
    assert t == i;
    NameFits(b, p);
    SizeIs(nameLen);
    SizeIs(NameLen(b, p));
  }

  /** There is room in the directory for a record with a name of that length. */
  ghost predicate Fits(s: State, d: nat, nameLen: nat)
    requires Insertable(s, d)
  {
    var n := s.inodes[d].sectors / 2;
    n > 0 && var es := Live(s.blocks[s.inodes[d].ptr[n - 1]]);
             exists i: nat :: TailIs(es, i) && RoomBehind(es[i], nameLen)
  }

  lemma FitsIff(s: State, d: nat, nameLen: nat)
    requires Insertable(s, d)
    ensures HasRoom(s, d, nameLen) <==> Fits(s, d, nameLen)
  {
    if s.inodes[d].sectors / 2 > 0 {
      var b := s.blocks[TailBlock(s, d)];
      var i := TailIndex(b, TailRecord(s, d));
      RoomAtIff(b, i, nameLen);
      assert forall j: nat :: TailIs(Live(b), j) ==> j == i;
    }
  }

  // ---------- what the records of a directory say ----------

  /** Number, name and type of every record, wherever it is. */
  ghost function AllSay(es: seq<Entry>): multiset<(nat, Name, Byte)> {
    if es == [] then multiset{} else multiset{(es[0].ino, es[0].name, es[0].ft)} + AllSay(es[1..])
  }

  lemma {:induction false} SayConcat(a: seq<Entry>, b: seq<Entry>)
    ensures AllSay(a + b) == AllSay(a) + AllSay(b)
  {
    if a == [] {
      assert a + b == b;
    } else {
      assert (a + b)[0] == a[0] && (a + b)[1..] == a[1..] + b;
      SayConcat(a[1..], b);
    }
  }

  lemma SayOne(e: Entry)
    ensures AllSay([e]) == multiset{(e.ino, e.name, e.ft)}
  {
    assert [e][1..] == [];
  }

  lemma SayPair(x: Entry, y: Entry)
    ensures AllSay([x, y]) == multiset{(x.ino, x.name, x.ft), (y.ino, y.name, y.ft)}
  {
    assert [x, y][1..] == [y];
    SayOne(y);
  }

  lemma SaySplit(es: seq<Entry>, es': seq<Entry>, a: seq<Entry>, x: Entry, e: Entry, b: seq<Entry>)
    requires SplitInto(es, es', a, x, e, b)
    ensures AllSay(es') == AllSay(es) + multiset{(e.ino, e.name, e.ft)}
  {
    var x' := x.(len := MinLen(|x.name|));
    SayConcat(a + [x], b);
    SayConcat(a, [x]);
    SayConcat(a + [x', e], b);
    SayConcat(a, [x', e]);
    SayOne(x);
    SayPair(x', e);
  }

  lemma SayReplaced(es: seq<Entry>, es': seq<Entry>, a: seq<Entry>, b: seq<Entry>, e: Entry)
    requires es == a + b && es' == a + [e] && b != []
    ensures (e.ino, e.name, e.ft) in AllSay(es') && AllSay(es') != AllSay(es) + multiset{(e.ino, e.name, e.ft)}
  {
    SayConcat(a, b);
    SayConcat(a, [e]);
    SayOne(e);
    var m := multiset{(b[0].ino, b[0].name, b[0].ft)};
    assert AllSay(b) == m + AllSay(b[1..]);
    assert |AllSay(es')| == |AllSay(a)| + 1;
    assert |AllSay(es) + multiset{(e.ino, e.name, e.ft)}| >= |AllSay(a)| + 2;
  }

  // ---------- new_dir_entry ----------

  /** A new block is none of the directory's. */
  ghost predicate NewIsNone(s: State, d: nat)
    requires d < |s.inodes|
  { forall k :: k in FreeBlocks(s) ==> k + 1 !in Direct(s.inodes[d].ptr) }

  lemma InsertSays(s: State, d: nat, child: nat, name: Name, ft: Byte)
    requires Shaped(s) && Tallied(s, d) && NewIsNone(s, d) && Insertable(s, d) && child < |s.inodes| && |name| < 0x100
    requires NewDirEntry(s, d, child, name, ft).1
    ensures var s' := NewDirEntry(s, d, child, name, ft).0; var says := (child + 1, name, ft);
            && DirOk(s', d) && says in AllSay(DirEntries(s', d))
            && (AllSay(DirEntries(s', d)) == AllSay(DirEntries(s, d)) + multiset{says}
                <==> HasRoom(s, d, |name|) || s.inodes[d].sectors / 2 == 0)
  {
    if HasRoom(s, d, |name|) {
      var a, x, e, b := InsertShape(s, d, child, name, ft);
      SaySplit(DirEntries(s, d), DirEntries(NewDirEntry(s, d, child, name, ft).0, d), a, x, e, b);
    } else if s.inodes[d].sectors / 2 == 0 {
      GrowShape(s, d, child, name, ft);
      SayOne(Entry(0, child + 1, BLOCK_SIZE, name, ft));
    } else {
      var a, b, e := ReplacedEntries(s, d, child, name, ft);
      SayReplaced(DirEntries(s, d), DirEntries(NewDirEntry(s, d, child, name, ft).0, d), a, b, e);
    }
  }

  /**
   * A successful new_dir_entry keeps all records and adds the new one, if and only if the record that
   * the tail scan stops at, number `i` of the last block, has room behind it, or there is no block.
   */
  lemma InsertKeepsIff(s: State, d: nat, child: nat, name: Name, ft: Byte, i: nat)
    requires Shaped(s) && Tallied(s, d) && NewIsNone(s, d) && Insertable(s, d) && child < |s.inodes| && |name| < 0x100
    requires NewDirEntry(s, d, child, name, ft).1
    requires var n := NumDirect(s.inodes[d].ptr); n > 0 ==> TailIs(Live(s.blocks[s.inodes[d].ptr[n - 1]]), i)
    ensures DirOk(NewDirEntry(s, d, child, name, ft).0, d)
    ensures var n, es' := NumDirect(s.inodes[d].ptr), DirEntries(NewDirEntry(s, d, child, name, ft).0, d);
            AllSay(es') == AllSay(DirEntries(s, d)) + multiset{(child + 1, name, ft)}
            <==> n == 0 || var x := Live(s.blocks[s.inodes[d].ptr[n - 1]])[i];
                           x.len >= (|x.name| / 4 + 3) * 4 + (|name| / 4 + 3) * 4
  {
    InsertSays(s, d, child, name, ft);
    if NumDirect(s.inodes[d].ptr) > 0 { RoomAtIff(s.blocks[TailBlock(s, d)], i, |name|); }
  }
}

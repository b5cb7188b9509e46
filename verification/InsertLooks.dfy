/** What look-ups in a directory answer after an insertion: a record that comes first hides the new one. */
module InsertLooks {
  import opened Options
  import opened Bytes
  import opened Records
  import opened DirBlocks
  import opened DiskState
  import opened Directory
  import opened Invariant
  import opened Insertion
  import opened Exactness

  /** The records that a look-up comes to before one inserted now: up to the one the tail scan stops at. */
  ghost function Ahead(s: State, d: nat): seq<Entry>
    requires DirOk(s, d) && Insertable(s, d)
  {
    var ptr, n := s.inodes[d].ptr, s.inodes[d].sectors / 2;
    if n == 0 || n != NumDirect(ptr) then []
    else
      TailOnChain(s.blocks[ptr[n - 1]]);
      LastBlock(s, d);
      LiveOf(s.blocks, ptr[..n - 1])
      + Entries(s.blocks[ptr[n - 1]], 0, TailRecord(s, d)) + [At(s.blocks[ptr[n - 1]], TailRecord(s, d))]
  }

  lemma LastBlock(s: State, d: nat)
    requires DirOk(s, d) && NumDirect(s.inodes[d].ptr) > 0
    ensures var ptr, n := s.inodes[d].ptr, NumDirect(s.inodes[d].ptr);
            && BlocksOk(s.blocks, ptr[..n - 1]) && ptr[n - 1] < |s.blocks| && BlockOk(s.blocks[ptr[n - 1]])
            && Direct(ptr) == ptr[..n - 1] + [ptr[n - 1]]
            && DirEntries(s, d) == LiveOf(s.blocks, ptr[..n - 1]) + Live(s.blocks[ptr[n - 1]])
  {
    var ptr, n := s.inodes[d].ptr, NumDirect(s.inodes[d].ptr);
    LastPointer(ptr, ptr[n - 1]);
    LiveOfLast(s.blocks, ptr[..n - 1], ptr[n - 1]);
  }

  /** A record of the name comes first: a new one would not be found. */
  ghost predicate Shadowed(s: State, d: nat, name: Name)
    requires DirOk(s, d) && Insertable(s, d)
  { FindIno(Ahead(s, d), name).Some? }

  lemma AheadIs(s: State, d: nat) returns (rest: seq<Entry>)
    requires DirOk(s, d) && Insertable(s, d)
    ensures DirEntries(s, d) == Ahead(s, d) + rest
  {
    var ptr, n := s.inodes[d].ptr, s.inodes[d].sectors / 2;
    if n == 0 || n != NumDirect(ptr) {
      rest := DirEntries(s, d);
    } else {
      var b, p := s.blocks[ptr[n - 1]], TailRecord(s, d);
      LastBlock(s, d);
      var x;
      x, rest := TailOf(b, p);
      ConcatFour(LiveOf(s.blocks, ptr[..n - 1]), Entries(b, 0, p), [x], rest);
    }
  }

  lemma TailOf(b: Block, p: nat) returns (x: Entry, rest: seq<Entry>)
    requires BlockOk(b) && TailScan(b, 0, 0) == Some(p)
    ensures RecOk(b, p) && x == At(b, p) && Chain(b, 0, p) && Live(b) == Entries(b, 0, p) + [x] + rest
  {
    TailOnChain(b);
    x := At(b, p);
    BlockAt(b, p, x);
    rest := Entries(b, p + RecLen(b, p), BLOCK_SIZE);
  }

  /** A name that the directory does not have is not hidden. */
  lemma NewNotShadowed(s: State, d: nat, name: Name)
    requires DirOk(s, d) && Insertable(s, d) && FindIno(DirEntries(s, d), name) == None
    ensures !Shadowed(s, d, name)
  {
    var rest := AheadIs(s, d);
    FindConcat(Ahead(s, d), rest, name);
  }

  /** A hidden name is one that the directory has, and look-ups of it stop in front of the new record. */
  lemma ShadowedFound(s: State, d: nat, name: Name)
    requires DirOk(s, d) && Insertable(s, d) && Shadowed(s, d, name)
    ensures FindIno(DirEntries(s, d), name) == FindIno(Ahead(s, d), name)
  {
    var rest := AheadIs(s, d);
    FindConcat(Ahead(s, d), rest, name);
  }

  /** Look-ups of other names answer as before; of this one with the new record, unless there is one before it. */
  ghost predicate Puts(ahead: seq<Entry>, es: seq<Entry>, es': seq<Entry>, name: Name, ino: nat) {
    forall m :: FindIno(es', m)
             == if m == name && FindIno(ahead, name) == None then Some(ino) else FindIno(es, m)
  }

  lemma PutBehindAhead(pre: seq<Entry>, a: seq<Entry>, x: Entry, x': Entry, e: Entry, b: seq<Entry>)
    requires x'.name == x.name && x'.ino == x.ino
    ensures Puts(pre + a + [x], pre + (a + [x] + b), pre + (a + [x', e] + b), e.name, e.ino)
  {
    forall m ensures FindIno(pre + (a + [x', e] + b), m)
                  == if m == e.name && FindIno(pre + a + [x], e.name) == None then Some(e.ino)
                     else FindIno(pre + (a + [x] + b), m)
    {
      FindConcat(pre, a + [x] + b, m);
      FindConcat(pre, a + [x', e] + b, m);
      FindThree(a, [x], b, m);
      FindThree(a, [x', e], b, m);
      FindThree(pre, a, [x], m);
      FindPair(x', e, m);
      FindPair(x, x, m);
    }
  }

  lemma RoomLooks(s: State, d: nat, child: nat, name: Name, ft: Byte)
    requires AllocOk(s) && DirSound(s, d) && Insertable(s, d) && HasRoom(s, d, |name|)
    requires child < |s.inodes| && |name| < 0x100
    ensures var s' := NewDirEntry(s, d, child, name, ft).0;
            DirOk(s', d) && Puts(Ahead(s, d), DirEntries(s, d), DirEntries(s', d), name, child + 1)
  {
    var e := InsertFacts(s, d, child, name, ft);
    SplitLooks(s, NewDirEntry(s, d, child, name, ft).0, d, e);
  }

  lemma SplitLooks(s: State, s': State, d: nat, e: Entry)
    requires AllocOk(s) && DirSound(s, d) && Insertable(s, d) && s.inodes[d].sectors / 2 > 0 && TailSplit(s, s', d, e)
    ensures DirOk(s', d) && Puts(Ahead(s, d), DirEntries(s, d), DirEntries(s', d), e.name, e.ino)
  {
    var k, p := TailBlock(s, d), TailRecord(s, d);
    var a, x, b := InsertLive(s.blocks[k], s'.blocks[k], p, e);
    var pre := FrontKept(s, s', d, k);
    PutBehindAhead(pre, a, x, x.(len := MinLen(|x.name|)), e, b);
  }

  /** The other blocks of the directory stay. */
  lemma FrontKept(s: State, s': State, d: nat, k: nat) returns (pre: seq<Entry>)
    requires AllocOk(s) && DirSound(s, d) && Insertable(s, d) && s.inodes[d].sectors / 2 > 0 && k == TailBlock(s, d)
    requires |s'.blocks| == |s.blocks| && s'.blocks == s.blocks[k := s'.blocks[k]] && BlockOk(s'.blocks[k])
    requires d < |s'.inodes| && s'.inodes[d].ptr == s.inodes[d].ptr
    ensures BlockOk(s.blocks[k]) && DirEntries(s, d) == pre + Live(s.blocks[k])
    ensures DirOk(s', d) && DirEntries(s', d) == pre + Live(s'.blocks[k])
    ensures Chain(s.blocks[k], 0, TailRecord(s, d)) && RecOk(s.blocks[k], TailRecord(s, d))
    ensures Ahead(s, d)
            == pre + Entries(s.blocks[k], 0, TailRecord(s, d)) + [At(s.blocks[k], TailRecord(s, d))]
  {
    var ptr, n := s.inodes[d].ptr, NumDirect(s.inodes[d].ptr);
    LastBlock(s, d);
    OthersStay(s, s', ptr, n);
    LastBlock(s', d);
    TailOnChain(s.blocks[k]);
    pre := LiveOf(s.blocks, ptr[..n - 1]);
  }

  lemma OthersStay(s: State, s': State, ptr: Pointers, n: nat)
    requires PointersOk(ptr, |s.blocks|) && n == NumDirect(ptr) > 0 && BlocksOk(s.blocks, ptr[..n - 1])
    requires |s'.blocks| == |s.blocks| && ptr[n - 1] < |s.blocks|
    requires var k := ptr[n - 1]; s'.blocks == s.blocks[k := s'.blocks[k]] && BlockOk(s'.blocks[k])
    ensures BlocksOk(s'.blocks, Direct(ptr)) && BlocksOk(s'.blocks, ptr[..n - 1])
    ensures LiveOf(s'.blocks, ptr[..n - 1]) == LiveOf(s.blocks, ptr[..n - 1])
  {
    LiveOfFrame(s.blocks, s'.blocks, ptr[..n - 1]);
    assert forall j :: 0 <= j < n ==> Direct(ptr)[j] == if j < n - 1 then ptr[..n - 1][j] else ptr[n - 1];
  }

  /** What new_dir_entry does to look-ups in the directory, where it replaces no block. */
  lemma InsertLooksUp(s: State, d: nat, child: nat, name: Name, ft: Byte)
    requires Inv(s) && CanLink(s, d, child, name) && NewDirEntry(s, d, child, name, ft).1 && DirOk(s, d)
    ensures var s' := NewDirEntry(s, d, child, name, ft).0;
            DirOk(s', d) && Puts(Ahead(s, d), DirEntries(s, d), DirEntries(s', d), name, child + 1)
  {
    assert DirSound(s, d);
    if HasRoom(s, d, |name|) {
      RoomLooks(s, d, child, name, ft);
    } else {
      GrowShape(s, d, child, name, ft);
      var e := Entry(0, child + 1, BLOCK_SIZE, name, ft);
      forall m ensures FindIno([e], m) == if m == name then Some(child + 1) else None { FindPair(e, e, m); }
    }
  }
}

/**
 * Directory records inside one block.  A block is a chain: each record's rec_len leads to the
 * next record and the last one ends exactly at the end of the block.  Everything is stated on the
 * bytes, because the bytes a removed record leaves in its predecessor's slack matter later.
 */
module Records {
  import opened Bytes

  type Name = seq<Byte>

  const HEADER := 8

  /** What one record of a chain says, with the offset it says it at. */
  datatype Entry = Entry(off: nat, ino: nat, len: nat, name: Name, ft: Byte)

  /** Rounds up to a multiple of 4, and adds 4 to a size that already is one. */
  function RecLenBoundary(x: nat): nat { x + 4 - x % 4 }

  function MinLen(nameLen: nat): nat { RecLenBoundary(HEADER + nameLen) }

  function Ino(b: Block, o: nat): nat
    requires o + HEADER <= BLOCK_SIZE
  { Get32(b, o) }

  function RecLen(b: Block, o: nat): nat
    requires o + HEADER <= BLOCK_SIZE
  { Get16(b, o + 4) }

  function NameLen(b: Block, o: nat): Byte
    requires o + HEADER <= BLOCK_SIZE
  { b[o + 6] }

  function FileType(b: Block, o: nat): Byte
    requires o + HEADER <= BLOCK_SIZE
  { b[o + 7] }

  /** The stored name, cut off at the end of the block. */
  function NameOf(b: Block, o: nat): Name
    requires o + HEADER <= BLOCK_SIZE
  {
    var end := o + HEADER + NameLen(b, o);
    b[o + HEADER..if end <= BLOCK_SIZE then end else BLOCK_SIZE]
  }

  function At(b: Block, o: nat): Entry
    requires o + HEADER <= BLOCK_SIZE
  {
    Entry(o, Ino(b, o), RecLen(b, o), NameOf(b, o), FileType(b, o))
  }

  // ---------- chains ----------

  ghost predicate RecOk(b: Block, o: nat) {
    && o + HEADER <= BLOCK_SIZE
    && MinLen(NameLen(b, o)) <= RecLen(b, o)
    && o + RecLen(b, o) <= BLOCK_SIZE
  }

  /** A run of records leads from offset `o` to offset `p`. */
  ghost predicate Chain(b: Block, o: nat, p: nat)
    decreases p - o, b
  {
    o == p || (o < p && RecOk(b, o) && Chain(b, o + RecLen(b, o), p))
  }

  /** The records of that run, first to last. */
  ghost function Entries(b: Block, o: nat, p: nat): seq<Entry>
    requires Chain(b, o, p)
    decreases p - o, b
  {
    if o == p then [] else [At(b, o)] + Entries(b, o + RecLen(b, o), p)
  }

  ghost predicate BlockOk(b: Block) { Chain(b, 0, BLOCK_SIZE) }

  /** The live records of a directory block. */
  ghost function Live(b: Block): seq<Entry>
    requires BlockOk(b)
  { Entries(b, 0, BLOCK_SIZE) }

  lemma ConcatAssoc<T>(a: seq<T>, b: seq<T>, c: seq<T>)
    ensures (a + b) + c == a + (b + c)
  {
  }

  lemma ConcatPair<T>(x: T, y: T, s: seq<T>)
    ensures [x] + ([y] + s) == [x, y] + s
  {
  }

  lemma ChainCons(b: Block, o: nat, x: Entry, p: nat)
    requires RecOk(b, o) && x == At(b, o) && o + x.len <= p && Chain(b, o + x.len, p)
    ensures Chain(b, o, p) && Entries(b, o, p) == [x] + Entries(b, o + x.len, p)
  {
  }

  lemma {:induction false} ChainAppend(b: Block, o: nat, p: nat, q: nat)
    requires Chain(b, o, p) && Chain(b, p, q)
    ensures o <= p <= q && Chain(b, o, q) && Entries(b, o, q) == Entries(b, o, p) + Entries(b, p, q)
    decreases p - o
  {
    if o < p {
      var x := At(b, o);
      ChainAppend(b, o + x.len, p, q);
      ChainCons(b, o, x, p);
      ChainCons(b, o, x, q);
      ConcatAssoc([x], Entries(b, o + x.len, p), Entries(b, p, q));
    }
  }

  /** A chain is the only one from its start. */
  lemma {:induction false} ChainRest(b: Block, o: nat, p: nat, q: nat)
    requires Chain(b, o, p) && Chain(b, o, q) && p <= q
    ensures Chain(b, p, q)
    decreases p - o
  {
    if o < p {
      ChainRest(b, o + At(b, o).len, p, q);
    }
  }

  lemma AtFrame(b: Block, b': Block, o: nat)
    requires RecOk(b, o) && Agree(b, b', o, o + HEADER + NameLen(b, o))
    ensures RecOk(b', o) && At(b', o) == At(b, o)
  {
    assert NameOf(b', o) == NameOf(b, o);
  }

  lemma {:induction false} ChainFrame(b: Block, b': Block, o: nat, p: nat)
    requires Chain(b, o, p) && Agree(b, b', o, p)
    ensures Chain(b', o, p) && Entries(b', o, p) == Entries(b, o, p)
    decreases p - o
  {
    if o < p {
      AtFrame(b, b', o);
      ChainFrame(b, b', o + At(b, o).len, p);
    }
  }

  /** Only the length of the record changed. */
  lemma AtResized(b: Block, b': Block, o: nat)
    requires RecOk(b, o) && Agree(b, b', o, o + 4) && Agree(b, b', o + 6, o + HEADER + NameLen(b, o))
    requires MinLen(NameLen(b, o)) <= RecLen(b', o) && o + RecLen(b', o) <= BLOCK_SIZE
    ensures RecOk(b', o) && At(b', o) == At(b, o).(len := RecLen(b', o))
  {
    assert NameOf(b', o) == NameOf(b, o);
  }

  /** How many records of `es` name inode number `ino`. */
  ghost function Count(es: seq<Entry>, ino: nat): nat {
    if es == [] then 0 else (if es[0].ino == ino then 1 else 0) + Count(es[1..], ino)
  }

  lemma {:induction false} CountConcat(a: seq<Entry>, b: seq<Entry>, ino: nat)
    ensures Count(a + b, ino) == Count(a, ino) + Count(b, ino)
  {
    if a == [] {
      assert a + b == b;
    } else {
      CountConcat(a[1..], b, ino);
      assert (a + b)[1..] == a[1..] + b;
    }
  }

  lemma {:induction false} CountZero(es: seq<Entry>, ino: nat)
    ensures Count(es, ino) == 0 <==> forall e :: e in es ==> e.ino != ino
  {
    if es != [] {
      CountZero(es[1..], ino);
      assert es == [es[0]] + es[1..];
    }
  }

  // ---------- splitting a record off, and merging two ----------

  /** The record at `p` of `b` is cut to `m` bytes and a record of `b'` fills the space gained. */
  ghost predicate SplitAt(b: Block, b': Block, p: nat, m: nat) {
    && RecOk(b, p) && MinLen(NameLen(b, p)) <= m < RecLen(b, p)
    && Agree(b, b', 0, p + 4) && Agree(b, b', p + 6, p + m)
    && Agree(b, b', p + RecLen(b, p), BLOCK_SIZE)
    && RecLen(b', p) == m
    && RecOk(b', p + m) && RecLen(b', p + m) == RecLen(b, p) - m
  }

  lemma SplitHead(b: Block, b': Block, p: nat, m: nat)
    requires SplitAt(b, b', p, m) && Chain(b, p + RecLen(b, p), BLOCK_SIZE)
    ensures Chain(b', p, BLOCK_SIZE)
    ensures Entries(b', p, BLOCK_SIZE)
         == [At(b, p).(len := m), At(b', p + m)] + Entries(b, p + RecLen(b, p), BLOCK_SIZE)
  {
    var x, e, end := At(b, p), At(b', p + m), p + RecLen(b, p);
    ChainFrame(b, b', end, BLOCK_SIZE);
    ChainCons(b', p + m, e, BLOCK_SIZE);
    AtResized(b, b', p);
    ChainCons(b', p, x.(len := m), BLOCK_SIZE);
    ConcatPair(x.(len := m), e, Entries(b, end, BLOCK_SIZE));
  }

  /** `x` is cut down to its own size and `e` follows it; everything around them stays. */
  ghost predicate SplitInto(es: seq<Entry>, es': seq<Entry>, a: seq<Entry>, x: Entry, e: Entry, b: seq<Entry>) {
    && es == a + [x] + b
    && es' == a + [x.(len := MinLen(|x.name|)), e] + b
    && x.off + MinLen(|x.name|) == e.off && MinLen(|x.name|) + e.len == x.len
  }

  lemma NameFits(b: Block, o: nat)
    requires RecOk(b, o)
    ensures |NameOf(b, o)| == NameLen(b, o)
  {
  }

  lemma BlockAt(b: Block, p: nat, x: Entry)
    requires Chain(b, 0, p) && RecOk(b, p) && x == At(b, p) && Chain(b, p + x.len, BLOCK_SIZE)
    ensures BlockOk(b) && Live(b) == Entries(b, 0, p) + [x] + Entries(b, p + x.len, BLOCK_SIZE)
  {
    ChainCons(b, p, x, BLOCK_SIZE);
    ChainAppend(b, 0, p, BLOCK_SIZE);
    ConcatAssoc(Entries(b, 0, p), [x], Entries(b, p + x.len, BLOCK_SIZE));
  }

  lemma BlockSplit(b: Block, b': Block, p: nat, m: nat, x: Entry, e: Entry)
    requires Chain(b, 0, p) && SplitAt(b, b', p, m) && Chain(b, p + RecLen(b, p), BLOCK_SIZE)
    requires x == At(b, p).(len := m) && e == At(b', p + m)
    ensures BlockOk(b')
    ensures Live(b') == Entries(b, 0, p) + [x, e] + Entries(b, p + RecLen(b, p), BLOCK_SIZE)
  {
    ChainFrame(b, b', 0, p);
    SplitHead(b, b', p, m);
    ChainAppend(b', 0, p, BLOCK_SIZE);
    ConcatAssoc(Entries(b, 0, p), [x, e], Entries(b, p + RecLen(b, p), BLOCK_SIZE));
  }

  lemma SplitRecord(b: Block, b': Block, p: nat, e: Entry) returns (before: seq<Entry>, x: Entry, after: seq<Entry>)
    requires Chain(b, 0, p) && RecOk(b, p) && SplitAt(b, b', p, MinLen(NameLen(b, p)))
    requires Chain(b, p + RecLen(b, p), BLOCK_SIZE) && e == At(b', p + MinLen(NameLen(b, p)))
    ensures BlockOk(b) && BlockOk(b') && x == At(b, p) && before == Entries(b, 0, p)
    ensures SplitInto(Live(b), Live(b'), before, x, e, after)
  {
    x := At(b, p);
    NameFits(b, p);
    BlockAt(b, p, x);
    BlockSplit(b, b', p, MinLen(|x.name|), x.(len := MinLen(|x.name|)), e);
    before, after := Entries(b, 0, p), Entries(b, p + x.len, BLOCK_SIZE);
  }

  /** The record at `p` swallows its successor at `f`. */
  ghost predicate MergeAt(b: Block, b': Block, p: nat, f: nat) {
    && RecOk(b, p) && f == p + RecLen(b, p) && RecOk(b, f)
    && Agree(b, b', 0, p + 4) && Agree(b, b', p + 6, BLOCK_SIZE)
    && RecLen(b', p) == RecLen(b, p) + RecLen(b, f)
  }

  lemma MergeHead(b: Block, b': Block, p: nat, f: nat)
    requires MergeAt(b, b', p, f) && Chain(b, f + RecLen(b, f), BLOCK_SIZE)
    ensures Chain(b', p, BLOCK_SIZE)
    ensures Entries(b', p, BLOCK_SIZE)
         == [At(b, p).(len := At(b, p).len + At(b, f).len)] + Entries(b, f + RecLen(b, f), BLOCK_SIZE)
  {
    ChainFrame(b, b', f + RecLen(b, f), BLOCK_SIZE);
    AtResized(b, b', p);
    ChainCons(b', p, At(b, p).(len := RecLen(b', p)), BLOCK_SIZE);
  }

  /** `x` swallows `y`; everything around them stays. */
  ghost predicate MergedInto(es: seq<Entry>, es': seq<Entry>, a: seq<Entry>, x: Entry, y: Entry, b: seq<Entry>) {
    && es == a + [x, y] + b
    && es' == a + [x.(len := x.len + y.len)] + b
  }

  lemma MergeRecords(b: Block, b': Block, p: nat, f: nat)
    requires Chain(b, 0, p) && MergeAt(b, b', p, f)
    requires Chain(b, f + RecLen(b, f), BLOCK_SIZE)
    ensures BlockOk(b) && BlockOk(b')
    ensures MergedInto(Live(b), Live(b'), Entries(b, 0, p), At(b, p), At(b, f),
                       Entries(b, f + RecLen(b, f), BLOCK_SIZE))
  {
    var x, y, before, after := At(b, p), At(b, f), Entries(b, 0, p), Entries(b, f + RecLen(b, f), BLOCK_SIZE);
    ChainCons(b, f, y, BLOCK_SIZE);
    ChainCons(b, p, x, BLOCK_SIZE);
    ConcatPair(x, y, after);
    ChainAppend(b, 0, p, BLOCK_SIZE);
    ConcatAssoc(before, [x, y], after);
    ChainFrame(b, b', 0, p);
    MergeHead(b, b', p, f);
    ChainAppend(b', 0, p, BLOCK_SIZE);
    ConcatAssoc(before, [x.(len := x.len + y.len)], after);
  }
}

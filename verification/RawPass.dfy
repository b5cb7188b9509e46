/**
 * The pass over a slack as the machine does it: the bytes left are an unsigned number, and a hidden
 * record that is longer than its slack makes that number wrap around and the pass run on.
 */
module RawPass {
  import opened Options
  import opened Bytes
  import opened Records
  import opened DiskState
  import opened Restoration
  import opened RestoreWalk

  /** The loop is over, or goes on from record `c`; None if it leaves the block, the inode table or direct pointers. */
  datatype Turn = Over(r: Option<Scan>) | On(s: State, c: nat, size: nat, padding: nat, done: bool)

  /**
   * One turn of the loop, at record `c` of `size` bytes.  The record found gets all that is left, in 16 bits, even if
   * that leads out of the block.
   */
  ghost function TurnAt(s: State, k: nat, c: nat, size: nat, padding: nat, name: Name, done: bool): (t: Turn)
    requires k < |s.blocks| && |s.inodes| == |s.inodeBits| && size >= HEADER
    ensures t.On? ==>
              |t.s.blocks| == |s.blocks| && |t.s.inodes| == |t.s.inodeBits| && c < t.c < BLOCK_SIZE && t.size >= HEADER
  {
    var b, q := s.blocks[k], c + size;
    if padding < MIN_SLOT then Over(Some(Scan(s, done, false)))
    else if q + HEADER > BLOCK_SIZE then Over(None)
    else if Ino(b, q) == 0 then Over(Some(Scan(s, done, false)))
    else if q + HEADER + NameLen(b, q) > BLOCK_SIZE then Over(None)
    else
      var after := MinLen(NameLen(b, q));
      var left := U32(padding - after);
      if NameOf(b, q) == name && (Ino(b, q) > |s.inodes| || !DirectOnly(s.inodes[Ino(b, q) - 1].ptr)) then Over(None)
      else if !Candidate(s, k, q, name) then On(s, q, after, left, done)
      else if FileType(b, q) == FT_DIR then Over(Some(Scan(s, done, true)))
      else On(Revive(s, k, c, q, q + U16(padding)), q, after, left, true)
  }

  /** The loop from there on. */
  ghost function Pass(s: State, k: nat, c: nat, size: nat, padding: nat, name: Name, done: bool): Option<Scan>
    requires k < |s.blocks| && |s.inodes| == |s.inodeBits| && size >= HEADER
    decreases BLOCK_SIZE - c, s
  {
    match TurnAt(s, k, c, size, padding, name, done)
    case Over(r) => r
    case On(s1, q, after, left, done1) => Pass(s1, k, q, after, left, name, done1)
  }

  lemma NoWrap(left: nat, size: nat)
    requires size <= left < 0x1_0000_0000
    ensures U32(left - size) == left - size
  {
  }

  lemma TurnEnds(s: State, k: nat, c: nat, q: nat, padding: nat, name: Name, done: bool)
    requires k < |s.blocks| && |s.inodes| == |s.inodeBits| && c + HEADER <= q
    requires padding < MIN_SLOT || (q + HEADER <= BLOCK_SIZE && Ino(s.blocks[k], q) == 0)
    ensures TurnAt(s, k, c, q - c, padding, name, done) == Over(Some(Scan(s, done, false)))
  {
  }

  /** A hidden record that lies in the block and names an inode whose blocks can be walked. */
  ghost predicate Readable(s: State, k: nat, c: nat, q: nat, padding: nat, next: nat) {
    && k < |s.blocks| && |s.inodes| == |s.inodeBits| && c + HEADER <= q && q + HEADER <= BLOCK_SIZE
    && padding >= MIN_SLOT
    && 0 < Ino(s.blocks[k], q) <= |s.inodes| && DirectOnly(s.inodes[Ino(s.blocks[k], q) - 1].ptr)
    && q + HEADER + NameLen(s.blocks[k], q) <= BLOCK_SIZE && next == q + MinLen(NameLen(s.blocks[k], q))
  }

  /** The turn at such a record. */
  lemma TurnReads(s: State, k: nat, c: nat, q: nat, padding: nat, next: nat, left: nat, name: Name, done: bool)
    requires Readable(s, k, c, q, padding, next) && left == U32(padding - (next - q))
    ensures TurnAt(s, k, c, q - c, padding, name, done) ==
              if !Candidate(s, k, q, name) then On(s, q, next - q, left, done)
              else if FileType(s.blocks[k], q) == FT_DIR then Over(Some(Scan(s, done, true)))
              else On(Revive(s, k, c, q, q + U16(padding)), q, next - q, left, true)
  {
  }

  /** The turn at bytes that do not say the name. */
  lemma TurnOther(s: State, k: nat, c: nat, q: nat, padding: nat, next: nat, left: nat, name: Name, done: bool)
    requires k < |s.blocks| && |s.inodes| == |s.inodeBits| && c + HEADER <= q && padding >= MIN_SLOT
    requires q + HEADER <= BLOCK_SIZE && Ino(s.blocks[k], q) != 0 && q + HEADER + NameLen(s.blocks[k], q) <= BLOCK_SIZE
    requires NameOf(s.blocks[k], q) != name
    requires next == q + MinLen(NameLen(s.blocks[k], q)) && left == U32(padding - (next - q))
    ensures TurnAt(s, k, c, q - c, padding, name, done) == On(s, q, next - q, left, done)
  {
  }

  /** In a slack whose hidden records fit. */
  lemma HiddenReads(s: State, k: nat, c: nat, q: nat, next: nat, end: nat)
    requires RestOk(s, k, c, end) && q == c + MinLen(NameLen(s.blocks[k], c)) && q + MIN_SLOT <= end
    requires Ino(s.blocks[k], q) != 0
    requires next == q + MinLen(NameLen(s.blocks[k], q))
    ensures Readable(s, k, c, q, end - q, next) && next <= end && end - next == U32(end - q - (next - q))
    ensures U16(end - q) == end - q
  {
    NoWrap(end - q, next - q);
  }

  lemma TurnFits(s: State, k: nat, c: nat, q: nat, end: nat, next: nat, name: Name, done: bool) returns (t: Turn)
    requires q <= end && next <= end && Readable(s, k, c, q, end - q, next)
    requires end - next == U32(end - q - (next - q)) && U16(end - q) == end - q
    ensures t == TurnAt(s, k, c, q - c, end - q, name, done)
    ensures !Candidate(s, k, q, name) ==> t == On(s, q, next - q, end - next, done)
    ensures Candidate(s, k, q, name) && FileType(s.blocks[k], q) == FT_DIR ==> t == Over(Some(Scan(s, done, true)))
    ensures Candidate(s, k, q, name) && FileType(s.blocks[k], q) != FT_DIR ==>
              t == On(Revive(s, k, c, q, end), q, next - q, end - next, true)
  {
    TurnReads(s, k, c, q, end - q, next, end - next, name, done);
    t := TurnAt(s, k, c, q - c, end - q, name, done);
  }

  /** The loop from turn `t` on. */
  ghost function After(t: Turn, k: nat, name: Name): Option<Scan>
    requires t.On? ==> k < |t.s.blocks| && |t.s.inodes| == |t.s.inodeBits| && t.size >= HEADER
  { if t.Over? then t.r else Pass(t.s, k, t.c, t.size, t.padding, name, t.done) }

  lemma PassGoesOn(s: State, k: nat, c: nat, size: nat, padding: nat, name: Name, done: bool, t: Turn)
    requires k < |s.blocks| && |s.inodes| == |s.inodeBits| && size >= HEADER
    requires t == TurnAt(s, k, c, size, padding, name, done)
    ensures Pass(s, k, c, size, padding, name, done) == After(t, k, name)
  {
  }

  /** After turn `t` the rest of the pass, the loop being in a slack whose hidden records fit, gives `all`. */
  ghost predicate RestLeft(all: Scan, t: Turn, k: nat, end: nat, name: Name) {
    if t.Over? then t.r == Some(all)
    else RestOk(t.s, k, t.c, end) && t.size == MinLen(NameLen(t.s.blocks[k], t.c)) && t.c + t.size + t.padding == end
         && all == Rest(t.s, k, t.c, end, name, t.done)
  }

  lemma PassTurn(s: State, k: nat, c: nat, q: nat, end: nat, name: Name, done: bool) returns (t: Turn)
    requires RestOk(s, k, c, end) && q == c + MinLen(NameLen(s.blocks[k], c)) && q + MIN_SLOT <= end
    requires Ino(s.blocks[k], q) != 0
    ensures t == TurnAt(s, k, c, q - c, end - q, name, done)
    ensures RestLeft(Rest(s, k, c, end, name, done), t, k, end, name)
  {
    var next := q + MinLen(NameLen(s.blocks[k], q));
    RestGoesOn(s, k, c, q, end, name, done);
    HiddenReads(s, k, c, q, next, end);
    t := TurnFits(s, k, c, q, end, next, name, done);
    if Candidate(s, k, q, name) && FileType(s.blocks[k], q) != FT_DIR { RestTakes(s, k, c, q, end, name, done); }
  }

  lemma LastTurn(s: State, k: nat, c: nat, q: nat, end: nat, name: Name, done: bool) returns (t: Turn)
    requires RestOk(s, k, c, end) && q == c + MinLen(NameLen(s.blocks[k], c)) <= end
    requires q + MIN_SLOT > end || Ino(s.blocks[k], q) == 0
    ensures t == TurnAt(s, k, c, q - c, end - q, name, done)
    ensures RestLeft(Rest(s, k, c, end, name, done), t, k, end, name)
  {
    RestEnds(s, k, c, end, name, done);
    TurnEnds(s, k, c, q, end - q, name, done);
    t := Over(Some(Scan(s, done, false)));
  }

  /** One turn of the loop, and of the pass. */
  lemma AnyTurn(s: State, k: nat, c: nat, size: nat, padding: nat, end: nat, name: Name, done: bool, all: Scan)
    returns (t: Turn)
    requires RestOk(s, k, c, end) && size == MinLen(NameLen(s.blocks[k], c)) && c + size + padding == end
    requires all == Rest(s, k, c, end, name, done)
    ensures t == TurnAt(s, k, c, size, padding, name, done) && RestLeft(all, t, k, end, name)
  {
    var q := c + size;
    assert q - c == size && end - q == padding;
    if padding < MIN_SLOT || Ino(s.blocks[k], q) == 0 {
      t := LastTurn(s, k, c, q, end, name, done);
    } else {
      t := PassTurn(s, k, c, q, end, name, done);
    }
  }

  lemma {:induction false} PassLeftIs(t: Turn, k: nat, end: nat, name: Name, all: Scan)
    requires RestLeft(all, t, k, end, name)
    ensures t.On? ==> k < |t.s.blocks| && |t.s.inodes| == |t.s.inodeBits| && t.size >= HEADER
    ensures After(t, k, name) == Some(all)
    decreases if t.On? then BLOCK_SIZE + 1 - t.c else 0
  {
    if t.On? {
      var n := AnyTurn(t.s, k, t.c, t.size, t.padding, end, name, t.done, all);
      PassGoesOn(t.s, k, t.c, t.size, t.padding, name, t.done, n);
      PassLeftIs(n, k, end, name, all);
    }
  }

  /** Where every hidden record fits, this is the pass over the slack. */
  lemma PassIsRest(s: State, k: nat, c: nat, size: nat, padding: nat, end: nat, name: Name, done: bool)
    requires RestOk(s, k, c, end) && size == MinLen(NameLen(s.blocks[k], c)) && c + size + padding == end
    ensures Pass(s, k, c, size, padding, name, done) == Some(Rest(s, k, c, end, name, done))
  {
    PassLeftIs(On(s, c, size, padding, done), k, end, name, Rest(s, k, c, end, name, done));
  }

  /** The offsets at which the loop takes bytes for a record. */
  ghost function Visits(b: Block, q: nat, padding: nat): seq<nat>
    decreases BLOCK_SIZE - q, b
  {
    if padding < MIN_SLOT || q + HEADER > BLOCK_SIZE || Ino(b, q) == 0 then []
    else [q] + Visits(b, q + MinLen(NameLen(b, q)), U32(padding - MinLen(NameLen(b, q))))
  }

  /** Each hidden record ends where its slack does, or before. */
  ghost predicate Fits(b: Block, q: nat, end: nat)
    requires end <= BLOCK_SIZE
    decreases end - q, b
  {
    q + MIN_SLOT > end || Ino(b, q) == 0
    || (q + MinLen(NameLen(b, q)) <= end && Fits(b, q + MinLen(NameLen(b, q)), end))
  }

  ghost predicate Keeps(b: Block, v: nat, end: nat) { v + HEADER <= BLOCK_SIZE && v + MinLen(NameLen(b, v)) <= end }

  /** The loop takes no bytes beyond the slack for a record if and only if the hidden records fit it. */
  lemma {:induction false} StaysIffFits(b: Block, q: nat, end: nat)
    requires q <= end <= BLOCK_SIZE
    ensures (forall v :: v in Visits(b, q, end - q) ==> Keeps(b, v, end)) <==> Fits(b, q, end)
    decreases end - q
  {
    if q + MIN_SLOT <= end && Ino(b, q) != 0 {
      var next := q + MinLen(NameLen(b, q));
      var vs, rest := Visits(b, q, end - q), Visits(b, next, U32(end - q - (next - q)));
      assert vs == [q] + rest;
      assert forall v :: v in vs <==> v == q || v in rest;
      assert Keeps(b, q, end) <==> next <= end;
      if next <= end {
        NoWrap(end - q, next - q);
        assert rest == Visits(b, next, end - next);
        StaysIffFits(b, next, end);
        assert Fits(b, q, end) <==> Fits(b, next, end);
      } else {
        assert q in vs && !Fits(b, q, end);
      }
    }
  }

  lemma {:induction false} FitsIsHiddenOk(s: State, b: Block, q: nat, end: nat)
    requires end <= BLOCK_SIZE && HiddenOk(s, b, q, end)
    ensures Fits(b, q, end)
    decreases end - q
  {
    if q + MIN_SLOT <= end && Ino(b, q) != 0 { FitsIsHiddenOk(s, b, q + MinLen(NameLen(b, q)), end); }
  }
}

/** What holds of the restoring loop whether or not the hidden records fit their slack. */
module RawEffects {
  import opened Options
  import opened Bytes
  import opened Records
  import opened DiskState
  import opened Restoration
  import opened RestoreProofs
  import opened Invariant
  import opened RawPass

  lemma SparesTrans(s: State, s1: State, s2: State)
    requires Spares(s, s1) && Spares(s1, s2)
    ensures Spares(s, s2)
  {
  }

  /** What a turn of the loop does to the disk: nothing, or it revives the inode of a match. */
  lemma TurnIs(s: State, k: nat, c: nat, q: nat, padding: nat, name: Name, done: bool, t: Turn)
    requires k < |s.blocks| && |s.inodes| == |s.inodeBits| && c + HEADER <= q
    requires t == TurnAt(s, k, c, q - c, padding, name, done)
    ensures t.On? ==> q + HEADER <= BLOCK_SIZE
                      && t.s == if Candidate(s, k, q, name) then Revive(s, k, c, q, q + U16(padding)) else s
    ensures t.Over? && t.r.Some? ==> t.r.value.s == s
  {
  }

  lemma TurnSpares(s: State, k: nat, c: nat, size: nat, padding: nat, name: Name, done: bool, t: Turn)
    requires AllocOk(s) && ReservedMarked(s) && k < |s.blocks| && size >= HEADER
    requires t == TurnAt(s, k, c, size, padding, name, done)
    ensures t.On? ==> AllocOk(t.s) && ReservedMarked(t.s) && Spares(s, t.s)
    ensures t.Over? && t.r.Some? ==> t.r.value.s == s
  {
    var q := c + size;
    TurnIs(s, k, c, q, padding, name, done, t);
    if t.On? && Candidate(s, k, q, name) { ReviveSpares(s, k, c, q, padding, name, t.s); }
  }

  lemma ReviveSpares(s: State, k: nat, c: nat, q: nat, padding: nat, name: Name, s1: State)
    requires AllocOk(s) && ReservedMarked(s) && k < |s.blocks| && c + HEADER <= q && q + HEADER <= BLOCK_SIZE
    requires Candidate(s, k, q, name) && s1 == Revive(s, k, c, q, q + U16(padding))
    ensures AllocOk(s1) && ReservedMarked(s1) && Spares(s, s1)
  {
    ReviveAlloc(s, k, c, q, q + U16(padding), name);
  }

  /**
   * No pass, whatever it takes for records, changes an inode in use, unmarks a block, gives one a second
   * owner, or makes a counter wrong.
   */
  lemma {:induction false} PassSpares(s: State, k: nat, c: nat, size: nat, padding: nat, name: Name, done: bool)
    requires AllocOk(s) && ReservedMarked(s) && k < |s.blocks| && size >= HEADER
    ensures var r := Pass(s, k, c, size, padding, name, done);
            r.Some? ==> AllocOk(r.value.s) && ReservedMarked(r.value.s) && Spares(s, r.value.s)
    decreases BLOCK_SIZE - c
  {
    var t := TurnAt(s, k, c, size, padding, name, done);
    TurnSpares(s, k, c, size, padding, name, done, t);
    if t.On? {
      PassSpares(t.s, k, t.c, t.size, t.padding, name, t.done);
      var r := Pass(t.s, k, t.c, t.size, t.padding, name, t.done);
      if r.Some? { SparesTrans(s, t.s, r.value.s); }
    }
  }

  lemma TurnBits(s: State, k: nat, c: nat, size: nat, padding: nat, name: Name, done: bool, t: Turn)
    requires k < |s.blocks| && |s.inodes| == |s.inodeBits| && size >= HEADER
    requires t == TurnAt(s, k, c, size, padding, name, done)
    ensures t.On? ==> |t.s.inodeBits| == |s.inodeBits|
                      && forall n :: 0 <= n < |s.inodeBits| && s.inodeBits[n] ==> t.s.inodeBits[n]
    ensures t.Over? && t.r.Some? ==> t.r.value.s == s
  {
  }

  /** Inodes in use stay in use. */
  lemma {:induction false} PassBits(s: State, k: nat, c: nat, size: nat, padding: nat, name: Name, done: bool, n: nat)
    requires k < |s.blocks| && |s.inodes| == |s.inodeBits| && size >= HEADER && n < |s.inodeBits| && s.inodeBits[n]
    ensures var r := Pass(s, k, c, size, padding, name, done);
            r.Some? ==> n < |r.value.s.inodeBits| && r.value.s.inodeBits[n]
    decreases BLOCK_SIZE - c
  {
    var t := TurnAt(s, k, c, size, padding, name, done);
    TurnBits(s, k, c, size, padding, name, done, t);
    if t.On? { PassBits(t.s, k, t.c, t.size, t.padding, name, t.done, n); }
  }

  /** One turn at bytes that the loop takes for a record. */
  lemma TurnVisits(s: State, k: nat, c: nat, q: nat, padding: nat, name: Name, done: bool)
    requires k < |s.blocks| && |s.inodes| == |s.inodeBits| && c + HEADER <= q
    ensures var t := TurnAt(s, k, c, q - c, padding, name, done);
            var vs := Visits(s.blocks[k], q, padding);
            && (t == Over(Some(Scan(s, done, false))) ==> vs == [])
            && (t.Over? && t.r.Some? && vs != [] ==> t.r.value.stopped && vs[0] == q && Candidate(s, k, q, name))
            && (t.On? ==> t.c == q && vs != [] && vs[0] == q && vs[1..] == Visits(s.blocks[k], q + t.size, t.padding))
            && (t.On? ==> if Candidate(s, k, q, name) then Ino(s.blocks[k], q) - 1 < |t.s.inodeBits|
                            && t.s.inodeBits[Ino(s.blocks[k], q) - 1]
                          else t.s == s && t.done == done)
  {
  }

  ghost predicate NoneMatch(s: State, k: nat, vs: seq<nat>, name: Name) {
    forall v :: v in vs ==> !Matches(s, k, v, name)
  }

  lemma NoneMatchMore(s: State, k: nat, vs: seq<nat>, name: Name)
    requires vs != []
    ensures NoneMatch(s, k, vs, name) <==> !Matches(s, k, vs[0], name) && NoneMatch(s, k, vs[1..], name)
  {
    assert vs[0] in vs;
    assert forall v :: v in vs <==> v == vs[0] || v in vs[1..];
  }

  lemma PassOn(s: State, k: nat, c: nat, size: nat, padding: nat, name: Name, done: bool, t: Turn)
    requires k < |s.blocks| && |s.inodes| == |s.inodeBits| && size >= HEADER
    requires t == TurnAt(s, k, c, size, padding, name, done) && t.On?
    ensures Pass(s, k, c, size, padding, name, done) == Pass(t.s, k, t.c, t.size, t.padding, name, t.done)
  {
  }

  lemma BitShows(s: State, r: Option<Scan>, n: nat, done: bool)
    requires n < |s.inodeBits| && !s.inodeBits[n]
    requires r.Some? ==> n < |r.value.s.inodeBits| && r.value.s.inodeBits[n]
    ensures r != Some(Scan(s, done, false))
  {
  }

  /** A match shows: the inode is in use afterwards, or the program gives up. */
  lemma MatchShows(s: State, k: nat, c: nat, q: nat, padding: nat, name: Name, done: bool)
    requires k < |s.blocks| && |s.inodes| == |s.inodeBits| && c + HEADER <= q
    requires TurnAt(s, k, c, q - c, padding, name, done).On? && Candidate(s, k, q, name)
    ensures Pass(s, k, c, q - c, padding, name, done) != Some(Scan(s, done, false))
  {
    var t := TurnAt(s, k, c, q - c, padding, name, done);
    TurnVisits(s, k, c, q, padding, name, done);
    var n := Ino(s.blocks[k], q) - 1;
    PassBits(t.s, k, t.c, t.size, t.padding, name, t.done, n);
    PassOn(s, k, c, q - c, padding, name, done, t);
    BitShows(s, Pass(t.s, k, t.c, t.size, t.padding, name, t.done), n, done);
  }

  /** The first turn: the end, a match, or bytes that do not match. */
  lemma FirstTurn(s: State, k: nat, c: nat, q: nat, padding: nat, name: Name, done: bool) returns (next: nat, left: nat)
    requires k < |s.blocks| && |s.inodes| == |s.inodeBits| && c + HEADER <= q
    requires Pass(s, k, c, q - c, padding, name, done).Some?
    ensures var vs := Visits(s.blocks[k], q, padding); var r := Pass(s, k, c, q - c, padding, name, done);
            if vs == [] then r == Some(Scan(s, done, false))
            else vs[0] == q &&
                 if Matches(s, k, q, name) then r != Some(Scan(s, done, false))
                 else q + HEADER <= next && c < q < BLOCK_SIZE && vs[1..] == Visits(s.blocks[k], next, left)
                      && r == Pass(s, k, q, next - q, left, name, done)
  {
    var t := TurnAt(s, k, c, q - c, padding, name, done);
    TurnVisits(s, k, c, q, padding, name, done);
    next, left := 0, 0;
    if t.On? {
      if Candidate(s, k, q, name) { MatchShows(s, k, c, q, padding, name, done); }
      next, left := q + t.size, t.padding;
    }
  }

  /**
   * A pass that comes to an end, in its slack or beyond, leaves the disk alone and reports nothing if and
   * only if none of the bytes it takes for a record match.
   */
  lemma {:induction false} PassIdleIff(s: State, k: nat, c: nat, q: nat, padding: nat, name: Name, done: bool)
    requires k < |s.blocks| && |s.inodes| == |s.inodeBits| && c + HEADER <= q
    requires Pass(s, k, c, q - c, padding, name, done).Some?
    ensures Pass(s, k, c, q - c, padding, name, done) == Some(Scan(s, done, false))
       <==> NoneMatch(s, k, Visits(s.blocks[k], q, padding), name)
    decreases BLOCK_SIZE - c
  {
    var vs := Visits(s.blocks[k], q, padding);
    var next, left := FirstTurn(s, k, c, q, padding, name, done);
    if vs != [] {
      NoneMatchMore(s, k, vs, name);
      if !Matches(s, k, q, name) { PassIdleIff(s, k, q, next, left, name, done); }
    }
  }
}

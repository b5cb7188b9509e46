/**
 * ext2_restore: the records hidden in the slack behind live records, and what relinking one of
 * them does to the disk.
 */
module Restoration {
  import opened Bytes
  import opened Records
  import opened DiskState
  import opened Directory

  /** The smallest slack the scan looks into. */
  const MIN_SLOT := 12

  /** The records hidden between `q` and `end`, found by stepping over names, not over lengths. */
  ghost function Hidden(b: Block, q: nat, end: nat): seq<nat>
    requires end <= BLOCK_SIZE
    decreases end - q, b
  {
    if q + MIN_SLOT > end || Ino(b, q) == 0 || q + MinLen(NameLen(b, q)) > end then []
    else [q] + Hidden(b, q + MinLen(NameLen(b, q)), end)
  }

  /** What the scan relies on: each hidden record fits and names an inode whose blocks can be walked. */
  ghost predicate HiddenOk(s: State, b: Block, q: nat, end: nat)
    requires end <= BLOCK_SIZE
    decreases end - q
  {
    q + MIN_SLOT > end || Ino(b, q) == 0
    || (q + MinLen(NameLen(b, q)) <= end && Ino(b, q) <= |s.inodes|
        && DirectOnly(s.inodes[Ino(b, q) - 1].ptr) && HiddenOk(s, b, q + MinLen(NameLen(b, q)), end))
  }

  /** The bits of all the blocks the inode points at are clear. */
  ghost predicate BlocksFree(s: State, n: nat)
    requires n < |s.inodes|
  {
    forall p :: p in Direct(s.inodes[n].ptr) && 0 < p <= |s.blockBits| ==> !s.blockBits[p - 1]
  }

  ghost predicate Candidate(s: State, k: nat, q: nat, name: Name)
    requires k < |s.blocks| && q + HEADER <= BLOCK_SIZE
  {
    var ino := Ino(s.blocks[k], q);
    && 0 < ino <= |s.inodes| && ino <= |s.inodeBits|
    && !s.inodeBits[ino - 1] && NameOf(s.blocks[k], q) == name && BlocksFree(s, ino - 1)
  }

  /** The record at `q` takes the bytes up to `end`; the one at `o` is cut off where `q` starts. */
  function Relink(b: Block, o: nat, q: nat, end: nat): Block
    requires o + HEADER <= q <= BLOCK_SIZE - HEADER && q <= end < q + 0x1_0000
  {
    Put16(Put16(b, o + 4, q - o), q + 4, end - q)
  }

  /** The two records relinked, and the inode's deletion time and link count put right. */
  ghost function Relinked(s: State, k: nat, o: nat, q: nat, end: nat): State
    requires k < |s.blocks| && o + HEADER <= q <= BLOCK_SIZE - HEADER && q <= end < q + 0x1_0000
    requires 0 < Ino(s.blocks[k], q) <= |s.inodes| == |s.inodeBits|
  {
    var n := Ino(s.blocks[k], q) - 1;
    var i := s.inodes[n];
    SetBlock(SetInode(s, n, i.(dtime := 0, links := U16(i.links + 1))), k, Relink(s.blocks[k], o, q, end))
  }

  /** The bits of an inode and of its blocks are set. */
  ghost function Taken(s: State, n: nat): State
    requires n < |s.inodes| == |s.inodeBits|
  { TakeInode(TakeAll(s, Direct(s.inodes[n].ptr)), n) }

  ghost function Revive(s: State, k: nat, o: nat, q: nat, end: nat): State
    requires k < |s.blocks| && o + HEADER <= q <= BLOCK_SIZE - HEADER && q <= end < q + 0x1_0000
    requires 0 < Ino(s.blocks[k], q) <= |s.inodes| == |s.inodeBits|
  {
    Taken(Relinked(s, k, o, q, end), Ino(s.blocks[k], q) - 1)
  }

  /** The state reached, whether a record was restored, and whether the program gave up (EISDIR). */
  datatype Scan = Scan(s: State, done: bool, stopped: bool)

  ghost predicate Ascending(o: nat, hs: seq<nat>, end: nat)
    decreases |hs|
  {
    && o + HEADER <= BLOCK_SIZE && end <= BLOCK_SIZE
    && (hs == [] || (o + HEADER <= hs[0] && hs[0] + MIN_SLOT <= end && Ascending(hs[0], hs[1..], end)))
  }

  /**
   * One pass over the records `hs` hidden in one slack.  It does not stop at the first match, and
   * it cuts off the record before the match, hidden or not.
   */
  ghost function ScanSlack(s: State, k: nat, o: nat, hs: seq<nat>, end: nat, name: Name, done: bool): (r: Scan)
    requires k < |s.blocks| && |s.inodes| == |s.inodeBits| && Ascending(o, hs, end)
    ensures |r.s.blocks| == |s.blocks|
    decreases |hs|
  {
    if hs == [] then Scan(s, done, false)
    else if !Candidate(s, k, hs[0], name) then ScanSlack(s, k, hs[0], hs[1..], end, name, done)
    else if FileType(s.blocks[k], hs[0]) == FT_DIR then Scan(s, done, true)
    else ScanSlack(Revive(s, k, o, hs[0], end), k, hs[0], hs[1..], end, name, true)
  }

  lemma {:induction false} HiddenAscending(b: Block, o: nat, q: nat, end: nat)
    requires o + HEADER <= q && end <= BLOCK_SIZE && o + HEADER <= BLOCK_SIZE
    ensures Ascending(o, Hidden(b, q, end), end)
    decreases end - q
  {
    if Hidden(b, q, end) != [] {
      HiddenAscending(b, q, q + MinLen(NameLen(b, q)), end);
    }
  }

  ghost function Slack(b: Block, o: nat): (hs: seq<nat>)
    requires RecOk(b, o)
    ensures Ascending(o, hs, o + RecLen(b, o))
  {
    HiddenAscending(b, o, o + MinLen(NameLen(b, o)), o + RecLen(b, o));
    Hidden(b, o + MinLen(NameLen(b, o)), o + RecLen(b, o))
  }

  /** The first live record of the chain whose slack holds a match is where the pass takes effect. */
  ghost function ScanChain(s: State, k: nat, o: nat, name: Name): (r: Scan)
    requires k < |s.blocks| && |s.inodes| == |s.inodeBits| && Chain(s.blocks[k], o, BLOCK_SIZE)
    ensures |r.s.blocks| == |s.blocks|
    decreases BLOCK_SIZE - o, s
  {
    if o == BLOCK_SIZE then Scan(s, false, false)
    else
      var b := s.blocks[k];
      var r := ScanSlack(s, k, o, Slack(b, o), o + RecLen(b, o), name, false);
      if r.done || r.stopped then r else ScanChain(s, k, o + RecLen(b, o), name)
  }

  ghost function ScanBlocks(s: State, ps: seq<nat>, name: Name): Scan
    requires |s.inodes| == |s.inodeBits| && BlocksOk(s.blocks, ps)
  {
    if ps == [] then Scan(s, false, false)
    else
      var r := ScanChain(s, ps[0], 0, name);
      if r.done || r.stopped then r else ScanBlocks(s, ps[1..], name)
  }

  // ---------- what the scan relies on ----------

  /** The slack of `c`, up to `end`, can be read record by record without leaving it. */
  ghost predicate RestOk(s: State, k: nat, c: nat, end: nat) {
    && Shaped(s) && k < |s.blocks| && c + HEADER <= BLOCK_SIZE && end <= BLOCK_SIZE
    && HiddenOk(s, s.blocks[k], c + MinLen(NameLen(s.blocks[k], c)), end)
  }

  /** So can the slacks of all live records of block `k`. */
  ghost predicate SlacksOk(s: State, k: nat) {
    && k < |s.blocks|
    && forall o: nat :: Chain(s.blocks[k], 0, o) && RecOk(s.blocks[k], o) ==>
         RestOk(s, k, o, o + RecLen(s.blocks[k], o))
  }

  ghost predicate DirSlacksOk(s: State, d: nat)
    requires d < |s.inodes|
  { forall p :: p in Direct(s.inodes[d].ptr) ==> SlacksOk(s, p) }

  /** In a directory whose slacks can be read, the scan of all its blocks. */
  ghost function RestoreDirEntry(s: State, d: nat, name: Name): Scan
    requires Shaped(s) && d < |s.inodes| && (IsDir(s.inodes[d].mode) ==> DirOk(s, d) && DirSlacksOk(s, d))
  {
    if IsDir(s.inodes[d].mode) then ScanBlocks(s, Direct(s.inodes[d].ptr), name) else Scan(s, false, false)
  }
}

/**
 * ext2_checker: the counters are reconciled with the bitmaps, then every record of the root
 * directory gives rise to checks, each of which repairs at most one thing.
 */
module Checker {
  import opened Options
  import opened Bytes
  import opened Records
  import opened DiskState
  import opened Directory
  import opened Commands

  /** One thing to check: a record's type, an inode's bit or deletion time, or a block's bit. */
  datatype Check =
    | TypeAt(block: nat, off: nat, n: nat)
    | InodeBit(n: nat)
    | Dtime(n: nat)
    | BlockBit(k: nat)

  /** The record type that goes with a mode; None leaves the record alone. */
  function TypeOf(mode: nat): Option<Byte> {
    if IsDir(mode) then Some(FT_DIR)
    else if IsLnk(mode) then Some(FT_SYMLINK)
    else if IsReg(mode) then Some(FT_REG_FILE)
    else None
  }

  ghost predicate Fits(s: State, c: Check) {
    match c
    case TypeAt(k, o, n) => k < |s.blocks| && o + HEADER <= BLOCK_SIZE && n < |s.inodes|
    case InodeBit(n) => n < |s.inodeBits|
    case Dtime(n) => n < |s.inodes|
    case BlockBit(k) => k < |s.blockBits|
  }

  ghost predicate Holds(s: State, c: Check)
    requires Fits(s, c)
  {
    match c
    case TypeAt(k, o, n) => TypeOf(s.inodes[n].mode) in {None, Some(FileType(s.blocks[k], o))}
    case InodeBit(n) => s.inodeBits[n]
    case Dtime(n) => s.inodes[n].dtime == 0
    case BlockBit(k) => s.blockBits[k]
  }

  function Retype(b: Block, o: nat, ft: Byte): Block
    requires o + HEADER <= BLOCK_SIZE
  { b[o + 7 := ft] }

  ghost function Repair(s: State, c: Check): State
    requires Fits(s, c) && !Holds(s, c)
  {
    match c
    case TypeAt(k, o, n) => SetBlock(s, k, Retype(s.blocks[k], o, TypeOf(s.inodes[n].mode).value))
    case InodeBit(n) => TakeInode(s, n)
    case Dtime(n) => SetInode(s, n, s.inodes[n].(dtime := 0))
    case BlockBit(k) => TakeBlock(s, k)
  }

  ghost predicate SameSizes(s: State, s': State) {
    && |s'.blockBits| == |s.blockBits| && |s'.inodeBits| == |s.inodeBits|
    && |s'.inodes| == |s.inodes| && |s'.blocks| == |s.blocks|
  }

  /** The disk after a check, and the number of fixes. */
  ghost function Do(s: State, c: Check): (r: (State, nat))
    requires Fits(s, c)
    ensures SameSizes(s, r.0)
  {
    if Holds(s, c) then (s, 0) else (Repair(s, c), 1)
  }

  ghost predicate AllFit(s: State, cs: seq<Check>) { forall c :: c in cs ==> Fits(s, c) }

  ghost function DoAll(s: State, cs: seq<Check>): (r: (State, nat))
    requires AllFit(s, cs)
    ensures SameSizes(s, r.0)
    decreases |cs|
  {
    if cs == [] then (s, 0)
    else
      var d := Do(s, cs[0]);
      assert forall c :: c in cs[1..] ==> c in cs && Fits(s, c);
      var r := DoAll(d.0, cs[1..]);
      (r.0, d.1 + r.1)
  }

  // ---------- what is checked ----------

  predicate DotOrDotDot(name: Name) { name == DOT_NAME || name == DOT_DOT_NAME }

  /** A directory that the checker looks into: for the types of its records only. */
  ghost predicate LooksInto(s: State, e: Entry)
    requires 0 < e.ino <= |s.inodes|
  {
    IsDir(s.inodes[e.ino - 1].mode) && !DotOrDotDot(e.name) && !Reserved(e.ino - 1)
  }

  ghost predicate Named(s: State, es: seq<Entry>) { forall e :: e in es ==> 0 < e.ino <= |s.inodes| }

  /**
   * What the checker relies on for one record: it names an inode, the inode AFTER that one has
   * plain pointers (it is that one's blocks that get checked), and a directory has sound blocks.
   */
  ghost predicate EntryChecked(s: State, e: Entry) {
    && 0 < e.ino < |s.inodes| && DirectOnly(s.inodes[e.ino].ptr)
    && (forall p :: p in Direct(s.inodes[e.ino].ptr) ==> 0 < p <= |s.blockBits|)
    && (LooksInto(s, e) ==> DirOk(s, e.ino - 1) && Named(s, DirEntries(s, e.ino - 1)))
  }

  ghost predicate Checkable(s: State) {
    && Shaped(s) && (IsDir(s.inodes[ROOT].mode) ==>
         DirOk(s, ROOT) && forall e :: e in DirEntries(s, ROOT) ==> EntryChecked(s, e))
  }

  ghost function TypesIn(k: nat, es: seq<Entry>): seq<Check>
    requires forall e :: e in es ==> e.ino > 0
  {
    if es == [] then [] else [TypeAt(k, es[0].off, es[0].ino - 1)] + TypesIn(k, es[1..])
  }

  ghost function TypesOf(s: State, ps: seq<nat>): seq<Check>
    requires BlocksOk(s.blocks, ps) && Named(s, LiveOf(s.blocks, ps))
  {
    if ps == [] then [] else TypesIn(ps[0], Live(s.blocks[ps[0]])) + TypesOf(s, ps[1..])
  }

  function BlockBits(ps: seq<nat>): seq<Check>
    requires forall i :: 0 <= i < |ps| ==> ps[i] > 0
  {
    if ps == [] then [] else [BlockBit(ps[0] - 1)] + BlockBits(ps[1..])
  }

  /** For the record of a root block: its type, and the bit and deletion time of its inode. */
  ghost function OuterChecks(k: nat, e: Entry): seq<Check>
    requires e.ino > 0
  { [TypeAt(k, e.off, e.ino - 1), InodeBit(e.ino - 1), Dtime(e.ino - 1)] }

  /** The types of the records in a directory that it names. */
  ghost function InnerChecks(s: State, e: Entry): seq<Check>
    requires EntryChecked(s, e)
  { if LooksInto(s, e) then TypesOf(s, Direct(s.inodes[e.ino - 1].ptr)) else [] }

  /** The checks of one record of the root directory, in order. */
  ghost function EntryChecks(s: State, k: nat, e: Entry): seq<Check>
    requires EntryChecked(s, e)
  {
    OuterChecks(k, e) + BlockBits(Direct(s.inodes[e.ino].ptr)) + InnerChecks(s, e)
  }

  ghost function ChecksIn(s: State, k: nat, es: seq<Entry>): seq<Check>
    requires forall e :: e in es ==> EntryChecked(s, e)
  {
    if es == [] then [] else EntryChecks(s, k, es[0]) + ChecksIn(s, k, es[1..])
  }

  ghost function ChecksOf(s: State, ps: seq<nat>): seq<Check>
    requires BlocksOk(s.blocks, ps) && forall e :: e in LiveOf(s.blocks, ps) ==> EntryChecked(s, e)
  {
    if ps == [] then [] else ChecksIn(s, ps[0], Live(s.blocks[ps[0]])) + ChecksOf(s, ps[1..])
  }

  ghost function Checks(s: State): seq<Check>
    requires Checkable(s)
  {
    if IsDir(s.inodes[ROOT].mode) then ChecksOf(s, Direct(s.inodes[ROOT].ptr)) else []
  }

  // ---------- the counters, and the whole run ----------

  ghost function WrongCounters(s: State): nat {
    (if s.sbFreeInodes != |FreeInodes(s)| then 1 else 0) + (if s.sbFreeBlocks != |FreeBlocks(s)| then 1 else 0)
    + (if s.gdFreeInodes != |FreeInodes(s)| then 1 else 0) + (if s.gdFreeBlocks != |FreeBlocks(s)| then 1 else 0)
  }

  ghost function Recount(s: State): State {
    s.(sbFreeInodes := |FreeInodes(s)|, sbFreeBlocks := |FreeBlocks(s)|,
       gdFreeInodes := |FreeInodes(s)|, gdFreeBlocks := |FreeBlocks(s)|)
  }
}

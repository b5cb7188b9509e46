/** Directories: look-up, insertion and removal of a record, over all the blocks of a directory. */
module Directory {
  import opened Options
  import opened Bytes
  import opened Records
  import opened DirBlocks
  import opened DiskState

  ghost predicate BlocksOk(blocks: seq<Block>, ps: seq<nat>) {
    forall j :: 0 <= j < |ps| ==> 0 < ps[j] < |blocks| && BlockOk(blocks[ps[j]])
  }

  /** The live records of several blocks, one chain after the other. */
  ghost function LiveOf(blocks: seq<Block>, ps: seq<nat>): seq<Entry>
    requires BlocksOk(blocks, ps)
  {
    if ps == [] then [] else Live(blocks[ps[0]]) + LiveOf(blocks, ps[1..])
  }

  ghost predicate DirOk(s: State, d: nat) {
    d < |s.inodes| && s.inodes[d].ptr[DIRECT] == 0 && BlocksOk(s.blocks, Direct(s.inodes[d].ptr))
  }

  ghost function DirEntries(s: State, d: nat): seq<Entry>
    requires DirOk(s, d)
  {
    LiveOf(s.blocks, Direct(s.inodes[d].ptr))
  }

  /** The inode that the directory calls `name`; the first match decides, and a blank one fails. */
  ghost function Lookup(s: State, d: nat, name: Name): Option<nat>
    requires DirOk(s, d)
  {
    match FindIno(DirEntries(s, d), name)
    case Some(ino) => if ino != 0 then Some(ino - 1) else None
    case None => None
  }

  // ---------- insertion ----------

  ghost predicate TailOk(blocks: seq<Block>, k: nat) {
    0 < k < |blocks| && BlockOk(blocks[k]) && TailScan(blocks[k], 0, 0).Some?
  }

  /** What the insertion relies on: the slot i_blocks points at holds a block with a sound chain. */
  ghost predicate Insertable(s: State, d: nat) {
    && d < |s.inodes|
    && var n := s.inodes[d].sectors / 2;
       n <= DIRECT && (n > 0 ==> TailOk(s.blocks, s.inodes[d].ptr[n - 1]))
  }

  /** The block of `d` that insertion looks at, and the record it stops at there. */
  ghost function TailBlock(s: State, d: nat): nat
    requires Insertable(s, d) && s.inodes[d].sectors / 2 > 0
  { s.inodes[d].ptr[s.inodes[d].sectors / 2 - 1] }

  ghost function TailRecord(s: State, d: nat): nat
    requires Insertable(s, d) && s.inodes[d].sectors / 2 > 0
  { TailScan(s.blocks[TailBlock(s, d)], 0, 0).value }

  ghost predicate HasRoom(s: State, d: nat, nameLen: nat)
    requires Insertable(s, d)
  {
    s.inodes[d].sectors / 2 > 0 && RoomAt(s.blocks[TailBlock(s, d)], TailRecord(s, d), nameLen)
  }

  /** A new block takes the place of the last slot, whether or not that slot was in use. */
  ghost function GrowDir(s: State, d: nat, slot: nat, a: nat): State
    requires d < |s.inodes| && slot < POINTERS
  {
    var i := s.inodes[d];
    SetInode(s, d, i.(ptr := i.ptr[slot := a + 1], sectors := i.sectors + 2, size := i.size + BLOCK_SIZE))
  }

  ghost function NewDirEntry(s: State, d: nat, child: nat, name: Name, ft: Byte): (r: (State, bool))
    requires Shaped(s) && Insertable(s, d) && child < |s.inodes| && |name| < 0x100
    ensures Shaped(r.0) && |r.0.inodes| == |s.inodes| && |r.0.blocks| == |s.blocks| && r.0.inodeBits == s.inodeBits
    ensures forall m :: 0 <= m < |s.inodes| && m != d ==>
              r.0.inodes[m].sectors == s.inodes[m].sectors && r.0.inodes[m].ptr == s.inodes[m].ptr
    ensures forall m :: 0 <= m < |s.inodes| ==>
              && r.0.inodes[m].mode == s.inodes[m].mode
              && r.0.inodes[m].links == if r.1 && m == child then U16(s.inodes[m].links + 1) else s.inodes[m].links
  {
    var n := s.inodes[d].sectors / 2;
    if HasRoom(s, d, |name|) then
      var k := TailBlock(s, d);
      var b := InsertAt(s.blocks[k], TailRecord(s, d), child + 1, name, ft);
      (AddLinks(SetBlock(s, k, b), child, 1), true)
    else
      var (s1, a) := NewBlock(s);
      if a == None then (s, false)
      else
        assert s1.blockBits == s.blockBits[a.value := true] && a.value + 1 < |s.blocks|;
        var s2 := GrowDir(s1, d, if n > 0 then n - 1 else 0, a.value);
        var b := WriteRecord(s.blocks[a.value + 1], 0, child + 1, BLOCK_SIZE, name, ft);
        (AddLinks(SetBlock(s2, a.value + 1, b), child, 1), true)
  }

  // ---------- removal ----------

  /** The block with the first record called `name`, and that record's offset. */
  ghost function FindSlot(blocks: seq<Block>, ps: seq<nat>, name: Name): (r: Option<(nat, nat)>)
    requires BlocksOk(blocks, ps)
    ensures r.Some? ==> r.value.0 in ps && FindName(blocks[r.value.0], 0, name) == Some(r.value.1)
  {
    if ps == [] then None
    else match FindName(blocks[ps[0]], 0, name)
      case Some(f) => Some((ps[0], f))
      case None => FindSlot(blocks, ps[1..], name)
  }

  lemma {:induction false} FindSlotIs(blocks: seq<Block>, ps: seq<nat>, name: Name)
    requires BlocksOk(blocks, ps)
    ensures match FindSlot(blocks, ps, name)
            case None => FindIno(LiveOf(blocks, ps), name) == None
            case Some((k, f)) =>
              f + HEADER <= BLOCK_SIZE && FindIno(LiveOf(blocks, ps), name) == Some(Ino(blocks[k], f))
  {
    if ps != [] {
      FindNameNone(blocks[ps[0]], 0, name);
      FindConcat(Live(blocks[ps[0]]), LiveOf(blocks, ps[1..]), name);
      if FindName(blocks[ps[0]], 0, name).Some? {
        FindNameSome(blocks[ps[0]], 0, name);
      } else {
        FindSlotIs(blocks, ps[1..], name);
      }
    }
  }

  /** The predecessor of the named record, and the record that removal acts on. */
  datatype Removal = Removal(block: nat, before: nat, target: nat)

  /**
   * Removal acts on the record after the predecessor.  A record that comes first in its block
   * counts as its own predecessor, so then it is the record after it that gets removed.
   */
  ghost function FindRemoval(s: State, d: nat, name: Name): (r: Option<Removal>)
    requires DirOk(s, d)
    ensures r.Some? ==> var Removal(k, p, t) := r.value;
      k < |s.blocks| && p + HEADER <= BLOCK_SIZE && t == p + RecLen(s.blocks[k], p)
  {
    match FindSlot(s.blocks, Direct(s.inodes[d].ptr), name)
    case None => None
    case Some((k, f)) =>
      FindNameSome(s.blocks[k], 0, name);
      var p := Predecessor(s.blocks[k], 0, f);
      Some(Removal(k, p, p + RecLen(s.blocks[k], p)))
  }

  /** The record acted on exists and names an inode whose blocks can be walked. */
  ghost predicate Removable(s: State, d: nat, name: Name) {
    && DirOk(s, d)
    && var r := FindRemoval(s, d, name);
       r.Some? ==>
         && r.value.target + HEADER <= BLOCK_SIZE
         && var ino := Ino(s.blocks[r.value.block], r.value.target);
            0 < ino <= |s.inodes| && DirectOnly(s.inodes[ino - 1].ptr)
  }

  /** One link fewer; with the last one go the inode and its blocks. */
  ghost function DropLink(s: State, n: nat): State
    requires Shaped(s) && n < |s.inodes|
  {
    var s1 := AddLinks(s, n, -1);
    if s1.inodes[n].links == 0 then DropInode(DropAll(s1, Direct(s1.inodes[n].ptr)), n) else s1
  }

  ghost function RmDirEntry(s: State, d: nat, name: Name): (State, bool)
    requires Shaped(s) && Removable(s, d, name)
  {
    match FindRemoval(s, d, name)
    case None => (s, false)
    case Some(r) =>
      var b := s.blocks[r.block];
      var b' := if NameOf(b, r.target) == NameOf(b, r.before) then Put32(b, r.target, 0) else Unlink(b, r.before);
      (DropLink(SetBlock(s, r.block, b'), Ino(b, r.target) - 1), true)
  }
}

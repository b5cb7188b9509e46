/**
 * A disk image as a value, and what each primitive step does to it.  Bit k of the block bitmap
 * stands for block k + 1; inode indices start at 0, the inode numbers in records at 1.
 */
module DiskState {
  import opened Options
  import opened Bytes

  const DIRECT := 12
  const POINTERS := 15
  const ROOT := 1

  const FT_REG_FILE: Byte := 1
  const FT_DIR: Byte := 2
  const FT_SYMLINK: Byte := 7

  const S_IFLNK := 0xA000
  const S_IFREG := 0x8000
  const S_IFDIR := 0x4000

  predicate IsDir(mode: nat) { mode / 0x1000 % 0x10 == 4 }
  predicate IsReg(mode: nat) { mode / 0x1000 % 0x10 == 8 }
  predicate IsLnk(mode: nat) { mode / 0x1000 % 0x10 == 10 }

  lemma ModesAre()
    ensures IsDir(S_IFDIR) && !IsDir(S_IFREG) && !IsDir(S_IFLNK)
  {
  }

  type Pointers = p: seq<nat> | |p| == POINTERS witness seq(POINTERS, _ => 0)

  datatype Inode = Inode(mode: nat, size: nat, ctime: nat, dtime: nat, links: nat, sectors: nat, ptr: Pointers)

  /**
   * `dataStart` is the first block behind the superblock, the group descriptor, the bitmaps and the
   * inode table.  Their blocks are part of the image too; what they hold is what the other fields say.
   */
  datatype State = State(
    blockBits: seq<bool>, inodeBits: seq<bool>,
    sbFreeBlocks: nat, sbFreeInodes: nat,
    gdFreeBlocks: nat, gdFreeInodes: nat, usedDirs: nat,
    inodes: seq<Inode>, blocks: seq<Block>, dataStart: nat)

  /** Sizes agree, and the bit past the last block is set so that it is never handed out. */
  ghost predicate Shaped(s: State) {
    && |s.blockBits| == |s.blocks| && |s.inodeBits| == |s.inodes|
    && 0 < |s.blocks| < 0x1_0000 && 10 < |s.inodes| < 0x1_0000
    && s.blockBits[|s.blocks| - 1]
  }

  predicate Reserved(n: nat) { n != ROOT && n <= 10 }

  // ---------- bitmaps and counters ----------

  ghost function FreeBlocks(s: State): set<nat> {
    set k | 0 <= k < |s.blockBits| && !s.blockBits[k]
  }

  ghost function FreeInodes(s: State): set<nat> {
    set n | 0 <= n < |s.inodeBits| && !s.inodeBits[n] && !Reserved(n)
  }

  ghost predicate IsLeast(m: nat, S: set<nat>) { m in S && forall x :: x in S ==> m <= x }

  lemma {:induction false} LeastExists(S: set<nat>)
    requires S != {}
    ensures exists m :: IsLeast(m, S)
    decreases |S|
  {
    var m :| m in S;
    var T := S - {m};
    if T == {} {
      assert S == {m};
      assert IsLeast(m, S);
    } else {
      LeastExists(T);
      var t :| IsLeast(t, T);
      forall x | x in S ensures x == m || x in T {}
      assert IsLeast(if t < m then t else m, S);
    }
  }

  ghost function Least(S: set<nat>): (m: nat)
    requires S != {}
    ensures IsLeast(m, S)
  {
    LeastExists(S);
    var m :| IsLeast(m, S);
    m
  }

  ghost function TakeBlock(s: State, k: nat): State
    requires k < |s.blockBits|
  {
    s.(blockBits := s.blockBits[k := true],
       sbFreeBlocks := U32(s.sbFreeBlocks - 1), gdFreeBlocks := U16(s.gdFreeBlocks - 1))
  }

  ghost function TakeInode(s: State, n: nat): State
    requires n < |s.inodeBits|
  {
    s.(inodeBits := s.inodeBits[n := true],
       sbFreeInodes := U32(s.sbFreeInodes - 1), gdFreeInodes := U16(s.gdFreeInodes - 1))
  }

  ghost function DropInode(s: State, n: nat): State
    requires n < |s.inodeBits|
  {
    s.(inodeBits := s.inodeBits[n := false],
       sbFreeInodes := U32(s.sbFreeInodes + 1), gdFreeInodes := U16(s.gdFreeInodes + 1))
  }

  ghost function DropBlock(s: State, k: nat): State
    requires k < |s.blockBits|
  {
    s.(blockBits := s.blockBits[k := false],
       sbFreeBlocks := U32(s.sbFreeBlocks + 1), gdFreeBlocks := U16(s.gdFreeBlocks + 1))
  }

  /** First fit: the lowest clear bit. */
  ghost function NewBlock(s: State): (State, Option<nat>) {
    if FreeBlocks(s) == {} then (s, None)
    else var k := Least(FreeBlocks(s)); (TakeBlock(s, k), Some(k))
  }

  ghost function NewInode(s: State): (State, Option<nat>) {
    if FreeInodes(s) == {} then (s, None)
    else var n := Least(FreeInodes(s)); (TakeInode(s, n), Some(n))
  }

  /** A new inode of the given mode, in use, without links or blocks. */
  ghost function NewInodeOf(s: State, mode: nat, now: nat): (State, Option<nat>)
    requires |s.inodes| == |s.inodeBits|
  {
    var (s1, n) := NewInode(s);
    if n == None then (s, None)
    else (s1.(inodes := s1.inodes[n.value := Inode(mode, 0, now, 0, 0, 0, seq(POINTERS, _ => 0))]), n)
  }

  // ---------- the blocks of an inode ----------

  /** The number of direct pointers before the first zero one. */
  function NumDirect(ptr: Pointers, i: nat := 0): (n: nat)
    requires i <= DIRECT
    ensures i <= n <= DIRECT
    ensures forall j :: i <= j < n ==> ptr[j] != 0
    ensures n < DIRECT ==> ptr[n] == 0
    decreases DIRECT - i, ptr
  {
    if i == DIRECT || ptr[i] == 0 then i else NumDirect(ptr, i + 1)
  }

  /** The blocks that a walk over a direct-only inode visits, in order. */
  function Direct(ptr: Pointers): seq<nat> { ptr[..NumDirect(ptr)] }

  /** The walk ends before it would read an indirect table. */
  predicate DirectOnly(ptr: Pointers) { NumDirect(ptr) < DIRECT || ptr[DIRECT] == 0 }

  /** The bits of all the blocks in `ps` set; the effect of one such step for each of them. */
  ghost function TakeAll(s: State, ps: seq<nat>): State {
    s.(blockBits := seq(|s.blockBits|, k requires 0 <= k < |s.blockBits| => s.blockBits[k] || k + 1 in ps),
       sbFreeBlocks := U32(s.sbFreeBlocks - |ps|), gdFreeBlocks := U16(s.gdFreeBlocks - |ps|))
  }

  ghost function DropAll(s: State, ps: seq<nat>): State {
    s.(blockBits := seq(|s.blockBits|, k requires 0 <= k < |s.blockBits| => s.blockBits[k] && k + 1 !in ps),
       sbFreeBlocks := U32(s.sbFreeBlocks + |ps|), gdFreeBlocks := U16(s.gdFreeBlocks + |ps|))
  }

  ghost function SetBlock(s: State, k: nat, b: Block): State
    requires k < |s.blocks|
  { s.(blocks := s.blocks[k := b]) }

  ghost function SetInode(s: State, n: nat, i: Inode): State
    requires n < |s.inodes|
  { s.(inodes := s.inodes[n := i]) }

  ghost function AddLinks(s: State, n: nat, d: int): State
    requires n < |s.inodes|
  { SetInode(s, n, s.inodes[n].(links := U16(s.inodes[n].links + d))) }
}

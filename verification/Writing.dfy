/** write_string_to_blocks, and how the blocks of a file are addressed when it is read back. */
module Writing {
  import opened Bytes
  import opened DiskState

  /** The pointers in an indirect table. */
  const TABLE := 256
  const MAX_BLOCKS := DIRECT + TABLE

  /** A C string ends at its first zero byte. */
  function CString(bs: seq<Byte>): (r: seq<Byte>)
    ensures 0 !in r && r <= bs && (r == bs <==> 0 !in bs)
  {
    if bs == [] || bs[0] == 0 then [] else [bs[0]] + CString(bs[1..])
  }

  /** The bytes of `src` that go into its block `i`. */
  function Chunk(src: seq<Byte>, i: nat): (r: seq<Byte>)
    requires 1024 * i <= |src|
    ensures |r| <= BLOCK_SIZE
  {
    if 1024 * i + BLOCK_SIZE <= |src| then src[1024 * i..1024 * i + BLOCK_SIZE]
    else src[1024 * i..]
  }

  /** One more block for inode `n`: its sector count, and the bytes in the block. */
  ghost function StoreBlock(s: State, n: nat, a: nat, i: Inode, bs: seq<Byte>): State
    requires n < |s.inodes| && a + 1 < |s.blocks| && |bs| <= BLOCK_SIZE
  {
    SetBlock(SetInode(s, n, i.(sectors := i.sectors + 2)), a + 1, PutBytes(s.blocks[a + 1], 0, bs))
  }

  lemma NewBlockInside(s: State)
    requires Shaped(s) && FreeBlocks(s) != {}
    ensures Least(FreeBlocks(s)) + 1 < |s.blocks| && Shaped(TakeBlock(s, Least(FreeBlocks(s))))
  {
  }

  /** One round of the first loop: the lowest free block becomes direct block `i`. */
  ghost function DirectStep(s: State, n: nat, src: seq<Byte>, i: nat): (s': State)
    requires Shaped(s) && n < |s.inodes| && i < DIRECT && 1024 * i < |src| && FreeBlocks(s) != {}
    ensures Shaped(s') && |s'.inodes| == |s.inodes| && |s'.blocks| == |s.blocks|
  {
    NewBlockInside(s);
    var a := Least(FreeBlocks(s));
    var s1 := TakeBlock(s, a);
    var ptr := s1.inodes[n].ptr;
    StoreBlock(s1, n, a, s1.inodes[n].(ptr := ptr[i := a + 1]), Chunk(src, i))
  }

  /** The loop over the direct pointers; it also says where it stopped. */
  ghost function WriteDirect(s: State, n: nat, src: seq<Byte>, i: nat): (r: (State, bool, nat))
    requires Shaped(s) && n < |s.inodes| && i <= DIRECT
    ensures Shaped(r.0) && |r.0.inodes| == |s.inodes| && |r.0.blocks| == |s.blocks| && i <= r.2 <= DIRECT
    ensures r.0.dataStart == s.dataStart && r.0.usedDirs == s.usedDirs
    decreases DIRECT - i, s
  {
    if 1024 * i >= |src| || i == DIRECT then (s, true, i)
    else if FreeBlocks(s) == {} then (s, false, i)
    else WriteDirect(DirectStep(s, n, src, i), n, src, i + 1)
  }

  /** One round of the second loop: the lowest free block becomes entry `j` of the table. */
  ghost function IndirectStep(s: State, n: nat, src: seq<Byte>, tbl: nat, j: nat): (s': State)
    requires Shaped(s) && n < |s.inodes| && tbl < |s.blocks| && j < TABLE
    requires 1024 * (DIRECT + j) < |src| && FreeBlocks(s) != {}
    ensures Shaped(s') && |s'.inodes| == |s.inodes| && |s'.blocks| == |s.blocks|
  {
    NewBlockInside(s);
    var a := Least(FreeBlocks(s));
    var s1 := TakeBlock(s, a);
    var s2 := SetBlock(s1, tbl, Put32(s1.blocks[tbl], 4 * j, a + 1));
    StoreBlock(s2, n, a, s2.inodes[n], Chunk(src, DIRECT + j))
  }

  /** The loop over the entries of the indirect table in block `tbl`, and where it stopped. */
  ghost function WriteIndirect(s: State, n: nat, src: seq<Byte>, tbl: nat, j: nat): (r: (State, bool, nat))
    requires Shaped(s) && n < |s.inodes| && tbl < |s.blocks| && j <= TABLE
    ensures Shaped(r.0) && |r.0.inodes| == |s.inodes| && |r.0.blocks| == |s.blocks| && j <= r.2 <= TABLE
    ensures r.0.dataStart == s.dataStart && r.0.usedDirs == s.usedDirs
    decreases TABLE - j, s
  {
    if 1024 * (DIRECT + j) >= |src| || j == TABLE then (s, true, j)
    else if FreeBlocks(s) == {} then (s, false, j)
    else WriteIndirect(IndirectStep(s, n, src, tbl, j), n, src, tbl, j + 1)
  }

  /** The lowest free block becomes the indirect table. */
  ghost function TableStep(s: State, n: nat): (s': State)
    requires Shaped(s) && n < |s.inodes| && FreeBlocks(s) != {}
    ensures Shaped(s') && |s'.inodes| == |s.inodes| && |s'.blocks| == |s.blocks|
  {
    NewBlockInside(s);
    var a := Least(FreeBlocks(s));
    var s1 := TakeBlock(s, a);
    var f := s1.inodes[n];
    SetInode(s1, n, f.(ptr := f.ptr[DIRECT := a + 1], sectors := f.sectors + 2))
  }

  ghost function SetSize(s: State, n: nat, size: nat): State
    requires n < |s.inodes|
  { SetInode(s, n, s.inodes[n].(size := size)) }

  /** The first loop left data over, and there is a block for a table. */
  ghost predicate GoesOn(s1: State, ok: bool, src: seq<Byte>, i: nat) {
    ok && 1024 * i < |src| && FreeBlocks(s1) != {}
  }

  /** The table and its entries; it also says how many. */
  ghost function WriteTable(s: State, n: nat, src: seq<Byte>): (r: (State, bool, nat))
    requires Shaped(s) && n < |s.inodes| && FreeBlocks(s) != {}
    ensures Shaped(r.0) && |r.0.inodes| == |s.inodes| && |r.0.blocks| == |s.blocks| && r.2 <= TABLE
    ensures r.0.dataStart == s.dataStart && r.0.usedDirs == s.usedDirs
  {
    NewBlockInside(s);
    WriteIndirect(TableStep(s, n), n, src, Least(FreeBlocks(s)) + 1, 0)
  }

  ghost function WriteString(s: State, n: nat, src: seq<Byte>): (r: (State, bool))
    requires Shaped(s) && n < |s.inodes|
    ensures Shaped(r.0) && |r.0.inodes| == |s.inodes| && |r.0.blocks| == |s.blocks| && r.0.dataStart == s.dataStart
    ensures r.0.usedDirs == s.usedDirs
  {
    var d := WriteDirect(SetSize(s, n, |src|), n, src, 0);
    if GoesOn(d.0, d.1, src, d.2) then
      var t := WriteTable(d.0, n, src);
      (t.0, t.1)
    else (d.0, d.1 && 1024 * d.2 >= |src|)
  }

  // ---------- reading back ----------

  function BlocksFor(size: nat): nat { (size + BLOCK_SIZE - 1) / BLOCK_SIZE }

  /** The blocks a file of that many bytes takes, its indirect table included. */
  function BlocksNeeded(size: nat): nat {
    BlocksFor(size) + (if size > 1024 * DIRECT then 1 else 0)
  }

  /** Pointer `p` names a block that is marked in use. */
  ghost predicate Marked(s: State, p: nat) { 0 < p < |s.blocks| && p <= |s.blockBits| && s.blockBits[p - 1] }

  ghost predicate HasBlock(s: State, n: nat, i: nat)
    requires n < |s.inodes| && i < MAX_BLOCKS
  {
    if i < DIRECT then Marked(s, s.inodes[n].ptr[i])
    else Marked(s, s.inodes[n].ptr[DIRECT])
         && Marked(s, Get32(s.blocks[s.inodes[n].ptr[DIRECT]], 4 * (i - DIRECT)))
  }

  /** Block `i` of the file: a direct pointer, or one from the table that the indirect pointer names. */
  ghost function BlockOf(s: State, n: nat, i: nat): nat
    requires n < |s.inodes| && i < MAX_BLOCKS && HasBlock(s, n, i)
  {
    if i < DIRECT then s.inodes[n].ptr[i] else Get32(s.blocks[s.inodes[n].ptr[DIRECT]], 4 * (i - DIRECT))
  }

  /** Every block that the size of the file calls for is there. */
  ghost predicate Readable(s: State, n: nat) {
    && n < |s.inodes| && BlocksFor(s.inodes[n].size) <= MAX_BLOCKS
    && forall i :: 0 <= i < BlocksFor(s.inodes[n].size) ==> HasBlock(s, n, i)
  }

  ghost function ReadFrom(s: State, n: nat, i: nat): seq<Byte>
    requires Readable(s, n)
    decreases BlocksFor(s.inodes[n].size) - i, s
  {
    if i >= BlocksFor(s.inodes[n].size) then []
    else
      var left := s.inodes[n].size - 1024 * i;
      var b := s.blocks[BlockOf(s, n, i)];
      b[..if left < BLOCK_SIZE then left else BLOCK_SIZE] + ReadFrom(s, n, i + 1)
  }

  ghost function Content(s: State, n: nat): seq<Byte>
    requires Readable(s, n)
  { ReadFrom(s, n, 0) }
}

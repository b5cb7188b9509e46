/**
 * The disk image as the program holds it: bitmap bytes, an inode table, blocks and counters that
 * its routines overwrite in place.  Every routine is proved against the value-level step of the
 * same name: `Snap()` after the call is that step applied to `Snap()` before it.
 */
module DiskImage {
  import opened Options
  import opened Bytes
  import opened Bitmaps
  import opened Records
  import opened DirBlocks
  import opened DiskState
  import opened Directory
  import opened Restoration
  import opened RestoreWalk
  import opened Writing
  import opened Paths
  import opened Lookups
  import opened Commands
  import opened Checker
  import opened CheckerProofs
  import opened CheckerRuns
  import opened CheckerWalk
  import opened DiskFacts
  import opened PathBuffers

  class Disk {
    const blockBitmap: array<bv8>
    const inodeBitmap: array<bv8>
    const inodes: array<Inode>
    const blocks: array<Block>
    const dataStart: nat
    var sbFreeBlocks: nat
    var sbFreeInodes: nat
    var gdFreeBlocks: nat
    var gdFreeInodes: nat
    var usedDirs: nat

    ghost const Repr: set<object> := {this, blockBitmap, inodeBitmap, inodes, blocks}

    ghost function Snap(): State
      reads Repr
    {
      State(Bits(blockBitmap[..]), Bits(inodeBitmap[..]), sbFreeBlocks, sbFreeInodes,
            gdFreeBlocks, gdFreeInodes, usedDirs, inodes[..], blocks[..], dataStart)
    }

    ghost predicate Valid()
      reads Repr
    {
      && Shaped(Snap())
      && sbFreeBlocks < 0x1_0000_0000 && sbFreeInodes < 0x1_0000_0000
      && gdFreeBlocks < 0x1_0000 && gdFreeInodes < 0x1_0000 && usedDirs < 0x1_0000
      && blockBitmap != inodeBitmap
      && inodes as object !in {blockBitmap as object, inodeBitmap, blocks}
      && blocks as object !in {blockBitmap as object, inodeBitmap}
    }

    constructor (s: State, blockBytes: seq<bv8>, inodeBytes: seq<bv8>)
      requires Shaped(s) && s.blockBits == Bits(blockBytes) && s.inodeBits == Bits(inodeBytes)
      requires s.sbFreeBlocks < 0x1_0000_0000 && s.sbFreeInodes < 0x1_0000_0000
      requires s.gdFreeBlocks < 0x1_0000 && s.gdFreeInodes < 0x1_0000 && s.usedDirs < 0x1_0000
      ensures Valid() && fresh(Repr) && Snap() == s
    {
      blockBitmap := new bv8[|blockBytes|](i requires 0 <= i < |blockBytes| => blockBytes[i]);
      inodeBitmap := new bv8[|inodeBytes|](i requires 0 <= i < |inodeBytes| => inodeBytes[i]);
      inodes := new Inode[|s.inodes|](i requires 0 <= i < |s.inodes| => s.inodes[i]);
      blocks := new Block[|s.blocks|](i requires 0 <= i < |s.blocks| => s.blocks[i]);
      dataStart := s.dataStart;
      sbFreeBlocks, sbFreeInodes := s.sbFreeBlocks, s.sbFreeInodes;
      gdFreeBlocks, gdFreeInodes, usedDirs := s.gdFreeBlocks, s.gdFreeInodes, s.usedDirs;
      new;
      assert blockBitmap[..] == blockBytes && inodeBitmap[..] == inodeBytes;
      assert inodes[..] == s.inodes && blocks[..] == s.blocks;
    }

    // ---------- bitmaps and counters ----------

    method FindFreeBlock() returns (r: Option<nat>)
      requires Valid()
      ensures r == if FreeBlocks(Snap()) == {} then None else Some(Least(FreeBlocks(Snap())))
    {
      var found, k := FindFirst(blockBitmap, _ => false);
      assert FreeBlocks(Snap()) == Clear(Bits(blockBitmap[..]), _ => false);
      r := if found then Some(k) else None;
    }

    method TakeBlock(k: nat)
      requires Valid() && k < |Snap().blockBits|
      modifies Repr
      ensures Snap() == DiskState.TakeBlock(old(Snap()), k)
      ensures Valid()
    {
      SetBitByIndex(blockBitmap, k);
      sbFreeBlocks := U32(sbFreeBlocks - 1);
      gdFreeBlocks := U16(gdFreeBlocks - 1);
    }

    method NewBlock() returns (r: Option<nat>)
      requires Valid()
      modifies Repr
      ensures Valid() && (Snap(), r) == DiskState.NewBlock(old(Snap()))
    {
      r := FindFreeBlock();
      if r.Some? {
        TakeBlock(r.value);
      }
    }

    method FindFreeInode() returns (r: Option<nat>)
      requires Valid()
      ensures r == if FreeInodes(Snap()) == {} then None else Some(Least(FreeInodes(Snap())))
    {
      var found, n := FindFirst(inodeBitmap, Reserved);
      assert FreeInodes(Snap()) == Clear(Bits(inodeBitmap[..]), Reserved);
      r := if found then Some(n) else None;
    }

    method NewInode() returns (r: Option<nat>)
      requires Valid()
      modifies Repr
      ensures Valid() && (Snap(), r) == DiskState.NewInode(old(Snap()))
    {
      r := FindFreeInode();
      if r.Some? {
        SetBitByIndex(inodeBitmap, r.value);
        sbFreeInodes := U32(sbFreeInodes - 1);
        gdFreeInodes := U16(gdFreeInodes - 1);
      }
    }

    method RmInode(n: nat)
      requires Valid() && n < |Snap().inodes|
      modifies Repr
      ensures Valid() && Snap() == DropInode(old(Snap()), n)
    {
      UnsetBitByIndex(inodeBitmap, n);
      sbFreeInodes := U32(sbFreeInodes + 1);
      gdFreeInodes := U16(gdFreeInodes + 1);
    }

    method RmBlock(k: nat)
      requires Valid() && k + 1 < |Snap().blocks|
      modifies Repr
      ensures Valid() && Snap() == DropBlock(old(Snap()), k)
    {
      UnsetBitByIndex(blockBitmap, k);
      sbFreeBlocks := U32(sbFreeBlocks + 1);
      gdFreeBlocks := U16(gdFreeBlocks + 1);
    }

    /** new_inode_dir, new_inode_file and new_inode_link, which differ in the mode. */
    method NewInodeOf(mode: nat, now: nat) returns (r: Option<nat>)
      requires Valid()
      modifies Repr
      ensures Valid() && (Snap(), r) == DiskState.NewInodeOf(old(Snap()), mode, now)
    {
      r := NewInode();
      if r.Some? {
        inodes[r.value] := Inode(mode, 0, now, 0, 0, 0, seq(POINTERS, _ => 0));
      }
    }

    method AddLinks(n: nat, d: int)
      requires Valid() && n < |Snap().inodes|
      modifies inodes
      ensures Valid() && Snap() == DiskState.AddLinks(old(Snap()), n, d)
    {
      inodes[n] := inodes[n].(links := U16(inodes[n].links + d));
    }

    method PutBlock(k: nat, b: Block)
      requires Valid() && k < |Snap().blocks|
      modifies blocks
      ensures Valid() && Snap() == SetBlock(old(Snap()), k, b)
    {
      blocks[k] := b;
    }

    // ---------- directories ----------

    /** Whether the slack of the record that the scan for the tail stops at takes the name, and where that is. */
    method TailSlack(d: nat, nameLen: nat) returns (room: bool, k: nat, o: nat)
      requires Valid() && Insertable(Snap(), d)
      ensures room <==> HasRoom(Snap(), d, nameLen)
      ensures room ==> k == TailBlock(Snap(), d) && o == TailRecord(Snap(), d)
    {
      room, k, o := false, 0, 0;
      var n := inodes[d].sectors / 2;
      if n > 0 {
        k := inodes[d].ptr[n - 1];
        o := FindTail(blocks[k]);
        TailOnChain(blocks[k]);
        var padding := RecLen(blocks[k], o) - MinLen(NameLen(blocks[k], o));
        room := MinLen(nameLen) <= padding;
      }
    }

    /** A new block for the slot that comes out of i_blocks; the last one in use, if any is. */
    method GrowDir(d: nat) returns (r: Option<nat>)
      requires Valid() && d < |Snap().inodes| && Snap().inodes[d].sectors / 2 <= DIRECT
      modifies Repr
      ensures Valid() && r == DiskState.NewBlock(old(Snap())).1
      ensures r == None ==> Snap() == old(Snap())
      ensures r.Some? ==> var n := old(Snap()).inodes[d].sectors / 2;
                Snap() == Directory.GrowDir(DiskState.NewBlock(old(Snap())).0, d, if n > 0 then n - 1 else 0, r.value)
    {
      var slot := inodes[d].sectors / 2;
      if slot > 0 {
        slot := slot - 1;
      }
      r := NewBlock();
      if r.Some? {
        var i := inodes[d];
        inodes[d] := i.(ptr := i.ptr[slot := r.value + 1], sectors := i.sectors + 2, size := i.size + BLOCK_SIZE);
      }
    }

    /** Block `k` with the new record, and the link it is. */
    method PutNamed(k: nat, b: Block, child: nat)
      requires Valid() && k < |Snap().blocks| && child < |Snap().inodes|
      modifies Repr
      ensures Valid() && Snap() == DiskState.AddLinks(SetBlock(old(Snap()), k, b), child, 1)
    {
      PutBlock(k, b);
      AddLinks(child, 1);
    }

    /** A new block with the new record takes the place of the last one. */
    method PutInNew(d: nat, child: nat, name: Name, ft: Byte) returns (ok: bool)
      requires Valid() && d < |Snap().inodes| && Snap().inodes[d].sectors / 2 <= DIRECT
      requires child < |Snap().inodes| && |name| < 0x100
      modifies Repr
      ensures Valid() && (ok <==> DiskState.NewBlock(old(Snap())).1.Some?)
      ensures Snap() == if ok then GrownWith(old(Snap()), d, child, name, ft) else old(Snap())
    {
      NewBlockFits(Snap());
      var a := GrowDir(d);
      ok := a.Some?;
      if ok {
        PutNamed(a.value + 1, WriteRecord(blocks[a.value + 1], 0, child + 1, BLOCK_SIZE, name, ft), child);
      }
    }

    method NewDirEntry(d: nat, child: nat, name: Name, ft: Byte) returns (ok: bool)
      requires Valid() && Insertable(Snap(), d) && child < |Snap().inodes| && |name| < 0x100
      modifies Repr
      ensures Valid() && (Snap(), ok) == Directory.NewDirEntry(old(Snap()), d, child, name, ft)
    {
      var room, k, o := TailSlack(d, |name|);
      if room {
        InsertsInRoom(Snap(), d, child, name, ft);
        PutNamed(k, InsertAt(blocks[k], o, child + 1, name, ft), child);
        return true;
      }
      InsertsInNew(Snap(), d, child, name, ft);
      ok := PutInNew(d, child, name, ft);
    }

    /** The first record called `name` in the blocks of a directory. */
    method FindNamed(d: nat, name: Name) returns (r: Option<(nat, nat)>)
      requires Valid() && DirOk(Snap(), d)
      ensures r == FindSlot(Snap().blocks, Direct(Snap().inodes[d].ptr), name)
    {
      ghost var ps := Direct(inodes[d].ptr);
      var i := 0;
      DirectMore(inodes[d].ptr, 0);
      while i < DIRECT && inodes[d].ptr[i] != 0
        invariant i <= |ps| && FindSlot(blocks[..], ps, name) == FindSlot(blocks[..], ps[i..], name)
      {
        DirectMore(inodes[d].ptr, i);
        var k := inodes[d].ptr[i];
        var f := DirEntryByName(blocks[k], name);
        if f.Some? {
          return Some((k, f.value));
        }
        i := i + 1;
      }
      DirectMore(inodes[d].ptr, i);
      return None;
    }

    method InodeDirEntryFind(d: nat, name: Name) returns (r: Option<nat>)
      requires Valid() && DirOk(Snap(), d)
      ensures r == Lookup(Snap(), d, name)
    {
      var slot := FindNamed(d, name);
      FindSlotIs(blocks[..], Direct(inodes[d].ptr), name);
      if slot.Some? && Ino(blocks[slot.value.0], slot.value.1) != 0 {
        return Some(Ino(blocks[slot.value.0], slot.value.1) - 1);
      }
      return None;
    }

    /** One component: a look-up in a directory; a file stays where it is if no text follows. */
    method Descend(inode: nat, name: Name, more: bool) returns (r: Option<nat>)
      requires Valid() && Navigable(Snap()) && inode < |Snap().inodes|
      ensures r == WalkOne(Snap(), inode, name, more)
    {
      if IsDir(inodes[inode].mode) {
        LookupInside(Snap(), inode, name);
        r := InodeDirEntryFind(inode, name);
      } else if more {
        r := None;
      } else {
        r := Some(inode);
      }
    }

    method InodeByFilepath(abspath: Path) returns (r: Option<nat>)
      requires Valid() && Navigable(Snap()) && 0 !in abspath
      ensures r == ByPath(Snap(), abspath)
    {
      var inode: nat := ROOT;
      var ahead := new PathCursor(abspath);
      var name := ahead.Shift();
      ghost var rest := abspath;
      while name.Some?
        invariant Valid() && ahead.Valid() && fresh(ahead) && fresh(ahead.buf) && inode < |Snap().inodes|
        invariant ByPath(Snap(), abspath) == WalkPath(Snap(), inode, rest)
        invariant match Paths.Shift(rest)
                  case None => name == None
                  case Some((c, after)) => name == Some(c) && ahead.Rest() == after
        decreases |rest|
      {
        WalkByOne(Snap(), inode, rest);
        rest := ahead.Rest();
        var found := Descend(inode, name.value, !ahead.AtEnd());
        if found == None {
          return None;
        }
        inode := found.value;
        name := ahead.Shift();
      }
      return Some(inode);
    }

    // ---------- removal ----------

    method RmSlot(n: nat, i: nat, ghost s: State)
      requires Valid() && n < |Snap().inodes| && i < NumDirect(Snap().inodes[n].ptr)
      requires 0 < Snap().inodes[n].ptr[i] < |Snap().blocks| && Snap() == DropAll(s, Snap().inodes[n].ptr[..i])
      modifies Repr
      ensures Valid() && Snap() == DropAll(s, old(Snap()).inodes[n].ptr[..i + 1])
    {
      ghost var ptr := inodes[n].ptr;
      DropAllMore(s, ptr[..i], ptr[i]);
      assert ptr[..i + 1] == ptr[..i] + [ptr[i]];
      RmBlock(inodes[n].ptr[i] - 1);
    }

    /** rm_block for every block of an inode. */
    method RmBlocksOf(n: nat)
      requires Valid() && n < |Snap().inodes| && PointersInside(Snap(), n)
      modifies Repr
      ensures Valid() && Snap() == DropAll(old(Snap()), Direct(old(Snap()).inodes[n].ptr))
    {
      ghost var s := Snap();
      ghost var ptr := inodes[n].ptr;
      DropNothing(s);
      var i := 0;
      while i < DIRECT && inodes[n].ptr[i] != 0
        invariant Valid() && i <= NumDirect(ptr) && inodes[..] == s.inodes && Snap() == DropAll(s, ptr[..i])
      {
        NumMore(ptr, i);
        RmSlot(n, i, s);
        i := i + 1;
      }
      NumMore(ptr, i);
    }

    method DropLink(n: nat)
      requires Valid() && n < |Snap().inodes| && PointersInside(Snap(), n)
      modifies Repr
      ensures Valid() && Snap() == Directory.DropLink(old(Snap()), n)
    {
      AddLinks(n, -1);
      if inodes[n].links == 0 {
        RmBlocksOf(n);
        RmInode(n);
      }
    }

    method FindBefore(d: nat, name: Name) returns (r: Option<(nat, nat)>)
      requires Valid() && DirOk(Snap(), d)
      ensures r == None <==> FindRemoval(Snap(), d, name) == None
      ensures r.Some? ==>
                r.value == (FindRemoval(Snap(), d, name).value.block, FindRemoval(Snap(), d, name).value.before)
    {
      ghost var ps := Direct(inodes[d].ptr);
      var i, k, before := 0, 0, None;
      DirectMore(inodes[d].ptr, 0);
      while before == None && i < DIRECT && inodes[d].ptr[i] != 0
        invariant i <= |ps|
        invariant before == None ==> FindSlot(blocks[..], ps, name) == FindSlot(blocks[..], ps[i..], name)
        invariant before.Some? ==> var f := FindSlot(blocks[..], ps, name);
                    f.Some? && f.value.0 == k && Chain(blocks[k], 0, f.value.1)
                    && before == Some(Predecessor(blocks[k], 0, f.value.1))
      {
        DirectMore(inodes[d].ptr, i);
        k := inodes[d].ptr[i];
        before := DirEntryBeforeName(blocks[k], name);
        i := i + 1;
      }
      DirectMore(inodes[d].ptr, i);
      r := if before == None then None else Some((k, before.value));
    }

    method RmDirEntry(d: nat, name: Name) returns (ok: bool)
      requires Valid() && Removable(Snap(), d, name)
      requires var r := FindRemoval(Snap(), d, name);
               r.Some? ==> PointersInside(Snap(), Ino(Snap().blocks[r.value.block], r.value.target) - 1)
      modifies Repr
      ensures Valid() && (Snap(), ok) == Directory.RmDirEntry(old(Snap()), d, name)
    {
      var before := FindBefore(d, name);
      if before == None {
        return false;
      }
      var (k, p) := before.value;
      var target := p + RecLen(blocks[k], p);
      var n := Ino(blocks[k], target) - 1;
      RmRecord(k, p, target);
      DropLink(n);
      return true;
    }

    /** dir_entry_rm_next, or dir_entry_to_blank for a record that is its own predecessor. */
    method RmRecord(k: nat, p: nat, target: nat)
      requires Valid() && k < |Snap().blocks| && p + HEADER <= BLOCK_SIZE && target == p + RecLen(Snap().blocks[k], p)
      requires target + HEADER <= BLOCK_SIZE
      modifies blocks
      ensures Valid()
      ensures var b := old(Snap()).blocks[k];
              Snap() == SetBlock(old(Snap()), k,
                if NameOf(b, target) == NameOf(b, p) then Put32(b, target, 0) else Unlink(b, p))
    {
      var b := blocks[k];
      if NameOf(b, target) == NameOf(b, p) {
        PutBlock(k, Put32(b, target, 0));
      } else {
        PutBlock(k, Unlink(b, p));
      }
    }

    // ---------- writing a file ----------

    method SetInode(n: nat, i: Inode)
      requires Valid() && n < |Snap().inodes|
      modifies inodes
      ensures Valid() && Snap() == DiskState.SetInode(old(Snap()), n, i)
    {
      inodes[n] := i;
    }

    /** A block taken for a file gets its bytes and is counted. */
    method StoreBlock(n: nat, a: nat, i: Inode, bs: seq<Byte>)
      requires Valid() && n < |Snap().inodes| && a + 1 < |Snap().blocks| && |bs| <= BLOCK_SIZE
      modifies inodes, blocks
      ensures Valid() && Snap() == Writing.StoreBlock(old(Snap()), n, a, i, bs)
    {
      SetInode(n, i.(sectors := i.sectors + 2));
      PutBlock(a + 1, PutBytes(blocks[a + 1], 0, bs));
    }

    /** One round of the loop over the direct pointers. */
    method DirectRound(n: nat, src: seq<Byte>, i: nat) returns (ok: bool)
      requires Valid() && n < |Snap().inodes| && i < DIRECT && 1024 * i < |src|
      modifies Repr
      ensures Valid() && (ok <==> FreeBlocks(old(Snap())) != {})
      ensures Snap() == if ok then DirectStep(old(Snap()), n, src, i) else old(Snap())
    {
      ghost var s := Snap();
      NewBlockFits(s);
      var a := NewBlock();
      ok := a.Some?;
      if ok {
        var x := inodes[n].(ptr := inodes[n].ptr[i := a.value + 1]);
        DirectStepIs(s, Snap(), n, src, i, a.value, x);
        StoreBlock(n, a.value, x, Chunk(src, i));
      }
    }

    method WriteDirect(n: nat, src: seq<Byte>) returns (ok: bool, i: nat)
      requires Valid() && n < |Snap().inodes|
      modifies Repr
      ensures Valid() && (Snap(), ok, i) == Writing.WriteDirect(old(Snap()), n, src, 0)
    {
      ghost var s := Snap();
      i := 0;
      while 1024 * i < |src| && i < DIRECT
        invariant Valid() && |Snap().inodes| == |s.inodes| && i <= DIRECT
        invariant Writing.WriteDirect(s, n, src, 0) == Writing.WriteDirect(Snap(), n, src, i)
      {
        ok := DirectRound(n, src, i);
        if !ok {
          return false, i;
        }
        i := i + 1;
      }
      return true, i;
    }

    /** A block for the indirect table. */
    method TableRound(n: nat) returns (r: Option<nat>)
      requires Valid() && n < |Snap().inodes|
      modifies Repr
      ensures Valid() && (r == None <==> FreeBlocks(old(Snap())) == {})
      ensures r == None ==> Snap() == old(Snap())
      ensures r.Some? ==> r.value == Least(FreeBlocks(old(Snap()))) + 1 && Snap() == TableStep(old(Snap()), n)
    {
      NewBlockFits(Snap());
      var a := NewBlock();
      if a == None {
        return None;
      }
      SetInode(n, inodes[n].(ptr := inodes[n].ptr[DIRECT := a.value + 1], sectors := inodes[n].sectors + 2));
      return Some(a.value + 1);
    }

    method IndirectRound(n: nat, src: seq<Byte>, tbl: nat, j: nat) returns (ok: bool)
      requires Valid() && n < |Snap().inodes| && tbl < |Snap().blocks| && j < TABLE && 1024 * (DIRECT + j) < |src|
      modifies Repr
      ensures Valid() && (ok <==> FreeBlocks(old(Snap())) != {})
      ensures Snap() == if ok then IndirectStep(old(Snap()), n, src, tbl, j) else old(Snap())
    {
      NewBlockFits(Snap());
      var a := NewBlock();
      ok := a.Some?;
      if ok {
        PutBlock(tbl, Put32(blocks[tbl], 4 * j, a.value + 1));
        StoreBlock(n, a.value, inodes[n], Chunk(src, DIRECT + j));
      }
    }

    method WriteIndirect(n: nat, src: seq<Byte>, tbl: nat) returns (ok: bool, j: nat)
      requires Valid() && n < |Snap().inodes| && tbl < |Snap().blocks|
      modifies Repr
      ensures Valid() && (Snap(), ok, j) == Writing.WriteIndirect(old(Snap()), n, src, tbl, 0)
    {
      ghost var s := Snap();
      j := 0;
      while 1024 * (DIRECT + j) < |src| && j < TABLE
        invariant Valid() && |Snap().inodes| == |s.inodes| && |Snap().blocks| == |s.blocks| && j <= TABLE
        invariant Writing.WriteIndirect(s, n, src, tbl, 0) == Writing.WriteIndirect(Snap(), n, src, tbl, j)
      {
        ok := IndirectRound(n, src, tbl, j);
        if !ok {
          return false, j;
        }
        j := j + 1;
      }
      return true, j;
    }

    /** The indirect table and what it points at. */
    method WriteTable(n: nat, src: seq<Byte>) returns (ok: bool)
      requires Valid() && n < |Snap().inodes|
      modifies Repr
      ensures Valid()
      ensures if FreeBlocks(old(Snap())) == {} then !ok && Snap() == old(Snap())
              else Snap() == Writing.WriteTable(old(Snap()), n, src).0
                   && ok == Writing.WriteTable(old(Snap()), n, src).1
    {
      var tbl := TableRound(n);
      if tbl == None {
        return false;
      }
      var j;
      ok, j := WriteIndirect(n, src, tbl.value);
    }

    method WriteStringToBlocks(n: nat, src: seq<Byte>) returns (ok: bool)
      requires Valid() && n < |Snap().inodes|
      modifies Repr
      ensures Valid() && (Snap(), ok) == WriteString(old(Snap()), n, src)
    {
      SetInode(n, inodes[n].(size := |src|));
      var i;
      ok, i := WriteDirect(n, src);
      if ok && 1024 * i < |src| {
        ok := WriteTable(n, src);
      }
    }

    // ---------- restore ----------

    /** datablock_is_ok for every block of an inode. */
    method DatablocksOk(n: nat) returns (ok: bool)
      requires Valid() && n < |Snap().inodes| && PointersInside(Snap(), n)
      ensures ok <==> BlocksFree(Snap(), n)
    {
      ghost var ptr, bits := inodes[n].ptr, Bits(blockBitmap[..]);
      ok := true;
      var i := 0;
      while i < DIRECT && inodes[n].ptr[i] != 0
        invariant i <= NumDirect(ptr) && (ok <==> AllClear(bits, ptr, i))
      {
        NumMore(ptr, i);
        var marked := IsBitSetByIndex(blockBitmap, inodes[n].ptr[i] - 1);
        AllClearMore(bits, ptr, i);
        if marked {
          ok := false;
        }
        i := i + 1;
      }
      NumMore(ptr, i);
      FreeByIndex(Snap(), n);
    }

    /** set_datablock_in_bitmap for every block of an inode. */
    method SetDatablocks(n: nat)
      requires Valid() && n < |Snap().inodes| && PointersInside(Snap(), n)
      modifies Repr
      ensures Valid() && Snap() == TakeAll(old(Snap()), Direct(old(Snap()).inodes[n].ptr))
    {
      ghost var s := Snap();
      ghost var ptr := inodes[n].ptr;
      TakeNothing(s);
      var i := 0;
      while i < DIRECT && inodes[n].ptr[i] != 0
        invariant Valid() && i <= NumDirect(ptr) && inodes[..] == s.inodes && Snap() == TakeAll(s, ptr[..i])
      {
        DirectMore(ptr, i);
        TakeAllMore(s, ptr[..i], ptr[i]);
        assert Direct(ptr)[i] == ptr[i];
        TakeBlock(inodes[n].ptr[i] - 1);
        i := i + 1;
      }
      DirectMore(ptr, i);
    }

    method TakeInode(n: nat)
      requires Valid() && n < |Snap().inodes|
      modifies Repr
      ensures Valid() && Snap() == DiskState.TakeInode(old(Snap()), n)
    {
      SetBitByIndex(inodeBitmap, n);
      sbFreeInodes := U32(sbFreeInodes - 1);
      gdFreeInodes := U16(gdFreeInodes - 1);
    }

    /** Whether the hidden record at `q` is to be restored. */
    method IsCandidate(k: nat, q: nat, name: Name) returns (r: bool)
      requires Valid() && AllInside(Snap()) && k < |Snap().blocks| && q + HEADER <= BLOCK_SIZE
      requires 0 < Ino(Snap().blocks[k], q) <= |Snap().inodes|
      ensures r <==> Candidate(Snap(), k, q, name)
    {
      var n := Ino(blocks[k], q) - 1;
      var used := IsBitSetByIndex(inodeBitmap, n);
      if used || NameOf(blocks[k], q) != name {
        return false;
      }
      r := DatablocksOk(n);
    }

    /** A match is relinked. */
    method TakeRecord(k: nat, c: nat, q: nat, padding: nat, name: Name, ghost done: bool)
      requires Valid() && AllInside(Snap()) && RestOk(Snap(), k, c, q + padding)
      requires q == c + MinLen(NameLen(Snap().blocks[k], c)) && MIN_SLOT <= padding && Ino(Snap().blocks[k], q) != 0
      requires Candidate(Snap(), k, q, name) && FileType(Snap().blocks[k], q) != FT_DIR
      modifies Repr
      ensures Valid() && AllInside(Snap()) && RestOk(Snap(), k, q, q + padding)
      ensures Rest(old(Snap()), k, c, q + padding, name, done) == Rest(Snap(), k, q, q + padding, name, true)
      ensures NameLen(Snap().blocks[k], q) == NameLen(old(Snap()).blocks[k], q)
    {
      ghost var s := Snap();
      RestTakes(s, k, c, q, q + padding, name, done);
      Revive(k, c, q, padding);
      InsideKept(s, Snap(), k);
    }

    method Revive(k: nat, c: nat, q: nat, padding: nat)
      requires Valid() && AllInside(Snap()) && k < |Snap().blocks|
      requires c + HEADER <= q && HEADER <= padding && q + padding <= BLOCK_SIZE
      requires 0 < Ino(Snap().blocks[k], q) <= |Snap().inodes|
      modifies Repr
      ensures Valid() && Snap() == Restoration.Revive(old(Snap()), k, c, q, q + padding)
    {
      var n := Ino(blocks[k], q) - 1;
      ghost var s := Snap();
      assert PointersInside(s, n);
      SetInode(n, inodes[n].(dtime := 0, links := U16(inodes[n].links + 1)));
      PutBlock(k, Relink(blocks[k], c, q, q + padding));
      assert Snap() == Relinked(s, k, c, q, q + padding);
      SetDatablocks(n);
      TakeInode(n);
    }

    /** One hidden record, at `q` behind `c`: restored if it is a match, unless it is a directory's. */
    method TryRestore(k: nat, c: nat, q: nat, padding: nat, name: Name, ghost done: bool)
      returns (took: bool, stopped: bool)
      requires Valid() && AllInside(Snap()) && RestOk(Snap(), k, c, q + padding)
      requires q == c + MinLen(NameLen(Snap().blocks[k], c)) && MIN_SLOT <= padding && Ino(Snap().blocks[k], q) != 0
      modifies Repr
      ensures Valid() && AllInside(Snap()) && RestOk(Snap(), k, q, q + padding)
      ensures Rest(old(Snap()), k, c, q + padding, name, done)
           == if stopped then Scan(Snap(), done, true) else Rest(Snap(), k, q, q + padding, name, done || took)
      ensures MinLen(NameLen(Snap().blocks[k], q)) <= padding && !(took && stopped)
    {
      took, stopped := false, false;
      RestGoesOn(Snap(), k, c, q, q + padding, name, done);
      var found := IsCandidate(k, q, name);
      if found && FileType(blocks[k], q) == FT_DIR {
        stopped := true;
      } else if found {
        TakeRecord(k, c, q, padding, name, done);
        took := true;
      }
    }

    /** One round of the loop over the records hidden behind a live one; `over` ends it. */
    method RestoreRound(k: nat, c: nat, size: nat, padding: nat, name: Name, done: bool, ghost all: Scan,
                        ghost end: nat)
      returns (c': nat, size': nat, padding': nat, done': bool, stopped: bool, over: bool)
      requires Valid() && AllInside(Snap()) && PassLeft(all, Snap(), k, c, size, padding, end, name, done, false)
      requires MIN_SLOT <= padding
      modifies Repr
      ensures Valid() && AllInside(Snap()) && padding' < padding
      ensures if stopped then all == Scan(Snap(), done', true)
              else PassLeft(all, Snap(), k, c', size', padding', end, name, done', over)
    {
      var q := c + size;
      c', size', padding', done', stopped, over := c, size, 0, done, false, false;
      if Ino(blocks[k], q) != 0 {
        var took;
        took, stopped := TryRestore(k, c, q, padding, name, done);
        done' := done || took;
        c', size' := q, MinLen(NameLen(blocks[k], q));
        padding' := padding - size';
      } else {
        RestEnds(Snap(), k, c, end, name, done);
        over := true;
      }
    }

    /** The callback for the live record at `o`, while nothing has been restored yet. */
    method RestoreHelper(k: nat, o: nat, name: Name) returns (done: bool, stopped: bool)
      requires Valid() && AllInside(Snap()) && k < |Snap().blocks| && RecOk(Snap().blocks[k], o)
      requires RestOk(Snap(), k, o, o + RecLen(Snap().blocks[k], o))
      modifies Repr
      ensures Valid() && AllInside(Snap())
      ensures Scan(Snap(), done, stopped)
           == Rest(old(Snap()), k, o, o + RecLen(old(Snap()).blocks[k], o), name, false)
    {
      ghost var all, end := Rest(Snap(), k, o, o + RecLen(blocks[k], o), name, false), o + RecLen(blocks[k], o);
      var c: nat, size: nat := o, MinLen(NameLen(blocks[k], o));
      var padding: nat := RecLen(blocks[k], o) - size;
      var over := false;
      done, stopped := false, false;
      while MIN_SLOT <= padding
        invariant Valid() && AllInside(Snap()) && PassLeft(all, Snap(), k, c, size, padding, end, name, done, over)
        decreases padding
      {
        c, size, padding, done, stopped, over := RestoreRound(k, c, size, padding, name, done, all, end);
        if stopped {
          return;
        }
      }
      if !over {
        RestEnds(Snap(), k, c, end, name, done);
      }
    }

    /** The callback on the record at `total`, and the step on from it. */
    method RestoreTry(k: nat, total: nat, name: Name, ghost s: State)
      returns (done: bool, stopped: bool, next: nat)
      requires Valid() && AllInside(Snap()) && total < BLOCK_SIZE && SlacksOk(s, k)
      requires Snap() == s && Walked(s, s, k, total, name, false, false)
      modifies Repr
      ensures Valid() && AllInside(Snap())
      ensures stopped ==>
                Scan(Snap(), done, true) == ScanChain(s, k, 0, name)
                && WalksAlike(s, Snap(), k) && BlockOk(Snap().blocks[k])
      ensures !stopped ==> total < next && Walked(s, Snap(), k, next, name, false, done)
    {
      next := 0;
      SlackHere(s, k, total);
      done, stopped := RestoreHelper(k, total, name);
      if !stopped {
        RecordStays(s, Snap(), k, total, name, done, stopped);
        next := total + RecLen(blocks[k], total);
      }
      WalkTries(s, Snap(), k, total, name, done, stopped, next);
    }

    /** One step of the walk, and where it goes on. */
    method RestoreStep(k: nat, total: nat, name: Name, was: bool, done: bool, ghost s: State)
      returns (done': bool, stopped: bool, next: nat)
      requires Valid() && AllInside(Snap()) && Walked(s, Snap(), k, total, name, was, done) && total < BLOCK_SIZE
      requires !was ==> SlacksOk(s, k)
      modifies Repr
      ensures Valid() && AllInside(Snap())
      ensures stopped ==>
                !was && Scan(Snap(), done', true) == ScanChain(s, k, 0, name)
                && WalksAlike(s, Snap(), k) && BlockOk(Snap().blocks[k])
      ensures !stopped ==> total < next && Walked(s, Snap(), k, next, name, was, done')
    {
      done', stopped, next := done, false, 0;
      if !done {
        done', stopped, next := RestoreTry(k, total, name, s);
      } else {
        WalkSteps(s, Snap(), k, total, name, was, 0);
        next := total + RecLen(blocks[k], total);
        WalkSteps(s, Snap(), k, total, name, was, next);
      }
    }

    /**
     * directory_entry_foreach_helper with that callback: the walk steps on from records that the
     * callback may just have cut short, and ends exactly at the end of the block.
     */
    method RestoreBlock(k: nat, name: Name, was: bool) returns (done: bool, stopped: bool)
      requires Valid() && AllInside(Snap()) && k < |Snap().blocks| && BlockOk(Snap().blocks[k])
      requires !was ==> SlacksOk(Snap(), k)
      modifies Repr
      ensures Valid() && AllInside(Snap())
      ensures Scan(Snap(), done, stopped)
           == if was then Scan(old(Snap()), true, false) else ScanChain(old(Snap()), k, 0, name)
      ensures WalksAlike(old(Snap()), Snap(), k) && BlockOk(Snap().blocks[k])
    {
      ghost var s := Snap();
      var total := 0;
      done, stopped := was, false;
      WalkStarts(s, k, name, was);
      while total < BLOCK_SIZE
        invariant Valid() && AllInside(Snap()) && Walked(s, Snap(), k, total, name, was, done)
        decreases BLOCK_SIZE - total
      {
        done, stopped, total := RestoreStep(k, total, name, was, done, s);
        if stopped {
          return;
        }
      }
    }

    /** The walk over the next block of the directory. */
    method RestoreNext(k: nat, name: Name, was: bool, ghost s: State, ghost ps: seq<nat>, ghost i: nat)
      returns (done: bool, stopped: bool)
      requires Valid() && AllInside(Snap()) && WalkedBlocks(s, Snap(), ps, i, name, was) && i < |ps| && ps[i] == k
      requires forall p :: p in ps ==> SlacksOk(s, p)
      modifies Repr
      ensures Valid() && AllInside(Snap())
      ensures stopped ==> Scan(Snap(), done, true) == ScanBlocks(s, ps, name)
      ensures !stopped ==> WalkedBlocks(s, Snap(), ps, i + 1, name, done)
    {
      assert k in ps;
      ghost var t := Snap();
      done, stopped := RestoreBlock(k, name, was);
      WalkNextBlock(s, t, Snap(), ps, i, name, was, done, stopped);
    }

    /** directory_entry_foreach, for a directory. */
    method RestoreInDir(d: nat, name: Name) returns (done: bool, stopped: bool)
      requires Valid() && AllInside(Snap()) && d < |Snap().inodes| && DirOk(Snap(), d) && DirSlacksOk(Snap(), d)
      modifies Repr
      ensures Valid()
      ensures Scan(Snap(), done, stopped) == ScanBlocks(old(Snap()), Direct(old(Snap()).inodes[d].ptr), name)
    {
      ghost var s, ptr := Snap(), inodes[d].ptr;
      ghost var ps := Direct(ptr);
      var i := 0;
      done, stopped := false, false;
      WalkBlocksStart(s, ps, name);
      while i < DIRECT && inodes[d].ptr[i] != 0
        invariant Valid() && AllInside(Snap()) && d < |Snap().inodes| && Snap().inodes[d].ptr == ptr
        invariant i <= |ps| && WalkedBlocks(s, Snap(), ps, i, name, done)
      {
        DirectMore(ptr, i);
        assert ps[i] == ptr[i];
        done, stopped := RestoreNext(inodes[d].ptr[i], name, done, s, ps, i);
        if stopped {
          return;
        }
        i := i + 1;
      }
      DirectMore(ptr, i);
      WalkBlocksEnd(s, Snap(), ps, name, done);
    }

    method RestoreDirEntry(d: nat, name: Name) returns (done: bool, stopped: bool)
      requires Valid() && AllInside(Snap()) && |name| < 0x100 && d < |Snap().inodes|
      requires IsDir(Snap().inodes[d].mode) ==> DirOk(Snap(), d) && DirSlacksOk(Snap(), d)
      modifies Repr
      ensures Valid()
      ensures Scan(Snap(), done, stopped) == Restoration.RestoreDirEntry(old(Snap()), d, name)
    {
      done, stopped := false, false;
      if IsDir(inodes[d].mode) {
        done, stopped := RestoreInDir(d, name);
      }
    }

    // ---------- the checker ----------

    /** check_dir_entry_file_type for the record at `o`, which names inode index `n`. */
    method CheckFileType(k: nat, o: nat, ghost n: nat) returns (f: nat)
      requires Valid() && k < |Snap().blocks| && o + HEADER <= BLOCK_SIZE
      requires n < |Snap().inodes| && Ino(Snap().blocks[k], o) == n + 1
      modifies blocks
      ensures Valid() && Done(old(Snap()), [TypeAt(k, o, n)], Snap(), f)
    {
      DoOne(Snap(), TypeAt(k, o, n));
      f := 0;
      var mode := inodes[Ino(blocks[k], o) - 1].mode;
      if FileType(blocks[k], o) != FT_DIR && IsDir(mode) {
        PutBlock(k, Retype(blocks[k], o, FT_DIR));
        f := f + 1;
      }
      if FileType(blocks[k], o) != FT_SYMLINK && IsLnk(mode) {
        PutBlock(k, Retype(blocks[k], o, FT_SYMLINK));
        f := f + 1;
      }
      if FileType(blocks[k], o) != FT_REG_FILE && IsReg(mode) {
        PutBlock(k, Retype(blocks[k], o, FT_REG_FILE));
        f := f + 1;
      }
    }

    method CheckInode(n: nat) returns (f: nat)
      requires Valid() && n < |Snap().inodes|
      modifies Repr
      ensures Valid() && (Snap(), f) == Do(old(Snap()), InodeBit(n))
    {
      f := 0;
      var used := IsBitSetByIndex(inodeBitmap, n);
      if !used {
        TakeInode(n);
        f := 1;
      }
    }

    method CheckDtime(n: nat) returns (f: nat)
      requires Valid() && n < |Snap().inodes|
      modifies inodes
      ensures Valid() && (Snap(), f) == Do(old(Snap()), Dtime(n))
    {
      f := 0;
      if inodes[n].dtime != 0 {
        SetInode(n, inodes[n].(dtime := 0));
        f := 1;
      }
    }

    /** count_inconsistent_blocks for one block. */
    method CheckBlock(b: nat) returns (f: nat)
      requires Valid() && b < |Snap().blocks|
      modifies Repr
      ensures Valid() && (Snap(), f) == Do(old(Snap()), BlockBit(b))
      ensures inodes[..] == old(inodes[..])
    {
      f := 0;
      var marked := IsBitSetByIndex(blockBitmap, b);
      if !marked {
        TakeBlock(b);
        f := 1;
      }
    }

    /** One step over the blocks of an inode. */
    method CheckBitSlot(n: nat, i: nat, f: nat, ghost s: State, ghost ptr: Pointers) returns (next: nat, total: nat)
      requires Valid() && n < |Snap().inodes| && Snap().inodes[n].ptr == ptr && i < NumDirect(ptr)
      requires BitsLeft(s, Snap(), Direct(ptr), i, f)
      modifies Repr
      ensures Valid() && BitsLeft(s, Snap(), Direct(ptr), next, total) && next == i + 1
      ensures inodes[..] == old(inodes[..])
    {
      ghost var t := Snap();
      assert Direct(ptr)[i] == ptr[i];
      BitsHere(s, t, Direct(ptr), i, f);
      var g := CheckBlock(inodes[n].ptr[i] - 1);
      BitsStep(s, t, Snap(), Direct(ptr), i, f, g);
      next, total := i + 1, f + g;
    }

    /** The bits of every block of an inode. */
    method CheckDatablocks(n: nat) returns (f: nat)
      requires Valid() && n < |Snap().inodes| && AllFit(Snap(), BlockBits(Direct(Snap().inodes[n].ptr)))
      modifies Repr
      ensures Valid() && Done(old(Snap()), BlockBits(Direct(old(Snap()).inodes[n].ptr)), Snap(), f)
    {
      ghost var s, ptr := Snap(), inodes[n].ptr;
      ghost var ps := Direct(ptr);
      f := 0;
      var i := 0;
      BitsStart(s, ps);
      while i < DIRECT && inodes[n].ptr[i] != 0
        invariant Valid() && inodes[..] == s.inodes && i <= |ps| && BitsLeft(s, Snap(), ps, i, f)
      {
        NumMore(ptr, i);
        i, f := CheckBitSlot(n, i, f, s, ptr);
      }
      NumMore(ptr, i);
      BitsEnd(s, Snap(), ps, f);
    }

    /** One step of the walk that checks types, and where it goes on. */
    method TypeStep(k: nat, total: nat, ghost s: State, ghost f: nat) returns (g: nat, next: nat)
      requires Valid() && TypesLeft(s, Snap(), k, total, f) && total < BLOCK_SIZE
      modifies blocks
      ensures Valid() && TypesLeft(s, Snap(), k, next, f + g) && total < next
    {
      ghost var t := Snap();
      ghost var n, ahead := TypesHere(t, k, total);
      g := CheckFileType(k, total, n);
      next := total + RecLen(blocks[k], total);
      TypesStep(s, t, Snap(), k, total, f, g, n, ahead);
    }

    /** The types of the records of one block. */
    method CheckTypesIn(k: nat) returns (f: nat)
      requires Valid() && k < |Snap().blocks| && BlockOk(Snap().blocks[k]) && Named(Snap(), Live(Snap().blocks[k]))
      modifies blocks
      ensures Valid() && SameShape(old(Snap()), Snap())
      ensures Done(old(Snap()), TypesIn(k, Live(old(Snap()).blocks[k])), Snap(), f)
    {
      ghost var s := Snap();
      var total, g := 0, 0;
      f := 0;
      TypesStart(s, k);
      while total < BLOCK_SIZE
        invariant Valid() && TypesLeft(s, Snap(), k, total, f)
        decreases BLOCK_SIZE - total
      {
        g, total := TypeStep(k, total, s, f);
        f := f + g;
      }
      TypesEnd(s, Snap(), k, f);
    }

    method CheckTypeSlot(d: nat, i: nat, f: nat, ghost s: State, ghost ptr: Pointers) returns (next: nat, total: nat)
      requires Valid() && d < |Snap().inodes| && Snap().inodes[d].ptr == ptr && i < NumDirect(ptr)
      requires TypeBlocksLeft(s, Snap(), Direct(ptr), i, f)
      modifies blocks
      ensures Valid() && TypeBlocksLeft(s, Snap(), Direct(ptr), next, total) && next == i + 1
    {
      ghost var t := Snap();
      assert Direct(ptr)[i] == ptr[i];
      TypeBlockHere(s, t, Direct(ptr), i, f);
      var g := CheckTypesIn(inodes[d].ptr[i]);
      TypeBlocksStep(s, t, Snap(), Direct(ptr), i, f, g);
      next, total := i + 1, f + g;
    }

    /** The types of the records of a directory. */
    method CheckTypes(d: nat) returns (f: nat)
      requires Valid() && DirOk(Snap(), d) && Named(Snap(), DirEntries(Snap(), d))
      modifies blocks
      ensures Valid() && Done(old(Snap()), TypesOf(old(Snap()), Direct(old(Snap()).inodes[d].ptr)), Snap(), f)
    {
      ghost var s, ptr := Snap(), inodes[d].ptr;
      f := 0;
      var i := 0;
      TypeBlocksStart(s, Direct(ptr));
      while i < DIRECT && inodes[d].ptr[i] != 0
        invariant Valid() && inodes[d].ptr == ptr && i <= NumDirect(ptr) && TypeBlocksLeft(s, Snap(), Direct(ptr), i, f)
      {
        NumMore(ptr, i);
        i, f := CheckTypeSlot(d, i, f, s, ptr);
      }
      NumMore(ptr, i);
      TypeBlocksEnd(s, Snap(), Direct(ptr), f);
    }

    /** The type of the record at `o`, and the bit and deletion time of its inode. */
    method CheckOuter(k: nat, o: nat, ghost e: Entry) returns (f: nat)
      requires Valid() && k < |Snap().blocks| && OnChain(Snap().blocks[k], o) && e == At(Snap().blocks[k], o)
      requires 0 < e.ino <= |Snap().inodes|
      modifies Repr
      ensures Valid() && SameShape(old(Snap()), Snap()) && Done(old(Snap()), OuterChecks(k, e), Snap(), f)
    {
      ghost var s := Snap();
      var n := Ino(blocks[k], o) - 1;
      var f1 := CheckFileType(k, o, e.ino - 1);
      ghost var t1 := Snap();
      var f2 := CheckInode(n);
      ghost var t2 := Snap();
      var f3 := CheckDtime(n);
      OuterParts(s, k, o, e, t1, t2, Snap(), f1, f2, f3);
      f := f1 + f2 + f3;
    }

    /** check_dir_entry_datablocks: the blocks of the inode at index `ino`. */
    method CheckNext(ino: nat, ghost s: State, ghost e: Entry) returns (f: nat)
      requires Valid() && Shaped(s) && EntryChecked(s, e) && SameShape(s, Snap()) && ino == e.ino
      modifies Repr
      ensures Valid() && SameShape(s, Snap()) && Done(old(Snap()), BlockBits(Direct(s.inodes[e.ino].ptr)), Snap(), f)
    {
      BitsFit(s, Snap(), e);
      BitsShape(s, Snap(), e);
      f := CheckDatablocks(ino);
    }

    /** The types of the records in the directory that a record names. */
    method CheckInner(n: nat, name: Name, ghost s: State, ghost e: Entry) returns (f: nat)
      requires Valid() && Shaped(s) && EntryChecked(s, e) && SameShape(s, Snap()) && n == e.ino - 1 && name == e.name
      modifies Repr
      ensures Valid() && Done(old(Snap()), InnerChecks(s, e), Snap(), f)
    {
      f := 0;
      LooksReady(s, Snap(), e);
      if IsDir(inodes[n].mode) && !DotOrDotDot(name) && !Reserved(n) {
        f := CheckTypes(n);
      }
    }

    /** check_dir_entry for the record at `o` of a block of the root directory. */
    method CheckDirEntry(k: nat, o: nat) returns (f: nat)
      requires Valid() && k < |Snap().blocks| && OnChain(Snap().blocks[k], o)
      requires EntryChecked(Snap(), At(Snap().blocks[k], o))
      modifies Repr
      ensures Valid() && Done(old(Snap()), EntryChecks(old(Snap()), k, At(old(Snap()).blocks[k], o)), Snap(), f)
    {
      ghost var s, e := Snap(), At(blocks[k], o);
      ghost var x := ChainInLive(blocks[k], o);
      var ino, name := Ino(blocks[k], o), NameOf(blocks[k], o);
      var f1 := CheckOuter(k, o, e);
      ghost var t1 := Snap();
      var f2 := CheckNext(ino, s, e);
      ghost var t2 := Snap();
      var f3 := CheckInner(ino - 1, name, s, e);
      EntryParts(s, k, e, t1, t2, Snap(), f1, f2, f3);
      f := f1 + f2 + f3;
    }

    /** One step of the walk over a block of the root directory, and where it goes on. */
    method EntryStep(k: nat, total: nat, ghost s: State, ghost f: nat) returns (g: nat, next: nat)
      requires Valid() && ChecksLeft(s, Snap(), k, total, f) && total < BLOCK_SIZE
      modifies Repr
      ensures Valid() && ChecksLeft(s, Snap(), k, next, f + g) && total < next
    {
      ghost var t := Snap();
      ghost var cs, ahead := ChecksHere(t, k, total);
      g := CheckDirEntry(k, total);
      ghost var u := Snap();
      ChecksStep(s, t, u, k, total, f, g, cs, ahead);
      assert blocks[k] == u.blocks[k];
      next := total + RecLen(blocks[k], total);
      assert next == ahead;
    }

    /** The walk over one block of the root directory. */
    method CheckEntriesIn(k: nat) returns (f: nat)
      requires Valid() && k < |Snap().blocks| && BlockOk(Snap().blocks[k]) && AllChecked(Snap(), Live(Snap().blocks[k]))
      modifies Repr
      ensures Valid() && SameShape(old(Snap()), Snap())
      ensures Done(old(Snap()), ChecksIn(old(Snap()), k, Live(old(Snap()).blocks[k])), Snap(), f)
    {
      ghost var s := Snap();
      var total := 0;
      f := 0;
      ChecksStart(s, k);
      while total < BLOCK_SIZE
        invariant Valid() && ChecksLeft(s, Snap(), k, total, f)
        decreases BLOCK_SIZE - total
      {
        var g, next := EntryStep(k, total, s, f);
        f, total := f + g, next;
      }
      ChecksEnd(s, Snap(), k, f);
    }

    /** The walk over the next block of the root directory. */
    method CheckNextBlock(k: nat, ghost s: State, ghost ps: seq<nat>, ghost i: nat, ghost f: nat) returns (g: nat)
      requires Valid() && CheckBlocksLeft(s, Snap(), ps, i, f) && i < |ps| && ps[i] == k
      modifies Repr
      ensures Valid() && CheckBlocksLeft(s, Snap(), ps, i + 1, f + g)
      ensures |Snap().inodes| == |old(Snap()).inodes|
      ensures forall n :: 0 <= n < |Snap().inodes| ==> Snap().inodes[n].ptr == old(Snap()).inodes[n].ptr
    {
      ghost var t := Snap();
      CheckBlockHere(s, t, ps, i, f);
      g := CheckEntriesIn(k);
      CheckBlocksStep(s, t, Snap(), ps, i, f, g);
    }

    method CheckSlot(i: nat, f: nat, ghost s: State, ghost ptr: Pointers) returns (next: nat, total: nat)
      requires Valid() && RootLeft(s, Snap(), ptr, i, f) && i < DIRECT && Snap().inodes[ROOT].ptr[i] != 0
      modifies Repr
      ensures Valid() && RootLeft(s, Snap(), ptr, next, total) && next == i + 1
    {
      NumMore(ptr, i);
      assert Direct(ptr)[i] == ptr[i];
      var g := CheckNextBlock(inodes[ROOT].ptr[i], s, Direct(ptr), i, f);
      next, total := i + 1, f + g;
    }

    /** directory_entry_foreach over the root directory. */
    method CheckBlocks() returns (f: nat)
      requires Valid() && DirOk(Snap(), ROOT) && AllChecked(Snap(), DirEntries(Snap(), ROOT))
      modifies Repr
      ensures Valid() && Done(old(Snap()), ChecksOf(old(Snap()), Direct(old(Snap()).inodes[ROOT].ptr)), Snap(), f)
    {
      ghost var s, ptr := Snap(), inodes[ROOT].ptr;
      CheckBlocksStart(s, Direct(ptr));
      f := CheckSlots(s, ptr);
      CheckBlocksEnd(s, Snap(), Direct(ptr), f);
    }

    method CheckSlots(ghost s: State, ghost ptr: Pointers) returns (f: nat)
      requires Valid() && RootLeft(s, Snap(), ptr, 0, 0)
      modifies Repr
      ensures Valid() && RootLeft(s, Snap(), ptr, NumDirect(ptr), f)
    {
      f := 0;
      var i := 0;
      while i < DIRECT && inodes[ROOT].ptr[i] != 0
        invariant Valid() && RootLeft(s, Snap(), ptr, i, f)
      {
        i, f := CheckSlot(i, f, s, ptr);
      }
      RootEnd(s, Snap(), ptr, i, f);
    }

    method CheckRoot() returns (f: nat)
      requires Valid() && Checkable(Snap())
      modifies Repr
      ensures Valid() && Done(old(Snap()), Checks(old(Snap())), Snap(), f)
    {
      f := 0;
      if IsDir(inodes[ROOT].mode) {
        f := CheckBlocks();
      }
    }

    method ReconcileSuperblock(freeInodes: nat, freeBlocks: nat) returns (f: nat)
      requires Valid() && freeInodes < 0x1_0000 && freeBlocks < 0x1_0000
      modifies this
      ensures Valid() && Snap() == old(Snap()).(sbFreeInodes := freeInodes, sbFreeBlocks := freeBlocks)
      ensures f == (if old(sbFreeInodes) != freeInodes then 1 else 0)
                + (if old(sbFreeBlocks) != freeBlocks then 1 else 0)
    {
      f := 0;
      if sbFreeInodes != freeInodes {
        sbFreeInodes, f := freeInodes, f + 1;
      }
      if sbFreeBlocks != freeBlocks {
        sbFreeBlocks, f := freeBlocks, f + 1;
      }
    }

    method ReconcileGroup(freeInodes: nat, freeBlocks: nat) returns (f: nat)
      requires Valid() && freeInodes < 0x1_0000 && freeBlocks < 0x1_0000
      modifies this
      ensures Valid() && Snap() == old(Snap()).(gdFreeInodes := freeInodes, gdFreeBlocks := freeBlocks)
      ensures f == (if old(gdFreeInodes) != freeInodes then 1 else 0)
                + (if old(gdFreeBlocks) != freeBlocks then 1 else 0)
    {
      f := 0;
      if gdFreeInodes != freeInodes {
        gdFreeInodes, f := freeInodes, f + 1;
      }
      if gdFreeBlocks != freeBlocks {
        gdFreeBlocks, f := freeBlocks, f + 1;
      }
    }

    /** The counters are compared with the bitmaps one by one. */
    method ReconcileCounters() returns (f: nat)
      requires Valid()
      modifies this
      ensures Valid() && Snap() == Recount(old(Snap())) && f == WrongCounters(old(Snap()))
    {
      var freeInodes := CountClear(inodeBitmap, Reserved);
      var freeBlocks := CountClear(blockBitmap, _ => false);
      assert FreeInodes(Snap()) == Clear(Bits(inodeBitmap[..]), Reserved);
      assert FreeBlocks(Snap()) == Clear(Bits(blockBitmap[..]), _ => false);
      FewFree(Snap());
      f := ReconcileSuperblock(freeInodes, freeBlocks);
      var g := ReconcileGroup(freeInodes, freeBlocks);
      f := f + g;
    }

    /** ext2_checker, with the number of fixes it reports. */
    method CheckDisk() returns (totalFixes: nat)
      requires Valid() && Checkable(Snap())
      modifies Repr
      ensures Valid() && (Snap(), totalFixes) == RunChecker(old(Snap()))
    {
      ghost var s := Snap();
      RecountSited(s);
      var f := ReconcileCounters();
      var g := CheckRoot();
      totalFixes := f + g;
    }

    // ---------- the commands ----------

    /** The body of cp and of ln -s. */
    method AddFile(d: nat, name: Name, mode: nat, ft: Byte, src: seq<Byte>, now: nat) returns (ok: bool)
      requires Valid() && AddReady(Snap(), d, name)
      modifies Repr
      ensures Valid() && (Snap(), ok) == Commands.AddFile(old(Snap()), d, name, mode, ft, src, now)
    {
      NewInodeFits(Snap(), mode, now);
      var n := NewInodeOf(mode, now);
      if n == None {
        return false;
      }
      ok := NewDirEntry(d, n.value, name, ft);
      if ok {
        ok := WriteStringToBlocks(n.value, src);
      }
    }

    method Dots(n: nat, d: nat) returns (ok: bool)
      requires Valid() && n < |Snap().inodes| && d < |Snap().inodes| && Snap().inodes[n].sectors == 0
      modifies Repr
      ensures Valid() && (Snap(), ok) == Commands.Dots(old(Snap()), n, d)
    {
      DotsFit(Snap(), n);
      ok := NewDirEntry(n, n, DOT_NAME, FT_DIR);
      if ok {
        ok := NewDirEntry(n, d, DOT_DOT_NAME, FT_DIR);
      }
    }

    /** The inode of a new directory, and the directory counted. */
    method NewCountedDir(now: nat) returns (n: Option<nat>)
      requires Valid()
      modifies Repr
      ensures Valid() && n == DiskState.NewInodeOf(old(Snap()), S_IFDIR, now).1
      ensures var s1 := DiskState.NewInodeOf(old(Snap()), S_IFDIR, now).0;
              Snap() == if n == None then old(Snap()) else CountDir(s1)
    {
      n := NewInodeOf(S_IFDIR, now);
      if n.Some? {
        usedDirs := U16(usedDirs + 1);
      }
    }

    /** The body of mkdir. */
    method MkdirAt(d: nat, name: Name, now: nat) returns (ok: bool)
      requires Valid() && AddReady(Snap(), d, name)
      modifies Repr
      ensures Valid() && (Snap(), ok) == Commands.MkdirAt(old(Snap()), d, name, now)
    {
      NewInodeFits(Snap(), S_IFDIR, now);
      var n := NewCountedDir(now);
      if n == None {
        return false;
      }
      ok := NewDirEntry(d, n.value, name, FT_DIR);
      if ok {
        ok := Dots(n.value, d);
      }
    }

    method RunMkdir(path: Path, now: nat) returns (ok: bool)
      requires Valid() && Runnable(Snap(), Mkdir(path, now)) && 0 !in path
      modifies Repr
      ensures Valid() && (Snap(), ok) == Step(old(Snap()), Mkdir(path, now))
    {
      if !IsAbsolute(path) {
        return false;
      }
      TrimmedParts(path);
      var trimmed := Trim(path);
      var parent := InodeByFilepath(FilePath(trimmed));
      if parent == None || !IsDir(inodes[parent.value].mode) {
        return false;
      }
      var file := InodeByFilepath(trimmed);
      if file.Some? {
        return false;
      }
      ok := MkdirAt(parent.value, FileName(trimmed), now);
    }

    /** The checks of cp. */
    method CheckCp(sourceName: Name, dest: Path) returns (r: Option<(nat, Name)>)
      requires Valid() && Sane(Snap()) && 0 !in dest
      ensures r == CpTarget(Snap(), sourceName, dest)
    {
      if !IsAbsolute(dest) {
        return None;
      }
      TrimmedParts(dest);
      var trimmed := Trim(dest);
      var dir, name := FilePath(trimmed), FileName(trimmed);
      var at := InodeByFilepath(dir);
      if at == None {
        return None;
      }
      var there := InodeByFilepath(trimmed);
      if there.Some? {
        if !IsDir(inodes[there.value].mode) {
          return None;
        }
        at := InodeByFilepath(Join(dir, name));
        name := sourceName;
      }
      if at == None || |name| > 255 || !IsDir(inodes[at.value].mode) {
        return None;
      }
      return Some((at.value, name));
    }

    method RunCp(file: Option<seq<Byte>>, sourceName: Name, dest: Path, now: nat) returns (ok: bool)
      requires Valid() && Runnable(Snap(), Cp(file, sourceName, dest, now)) && 0 !in dest
      modifies Repr
      ensures Valid() && (Snap(), ok) == Step(old(Snap()), Cp(file, sourceName, dest, now))
    {
      var t := CheckCp(sourceName, dest);
      if t == None || file == None {
        return false;
      }
      ok := AddFile(t.value.0, t.value.1, S_IFREG, FT_REG_FILE, CString(file.value), now);
    }

    /** The checks of ln, hard or symbolic. */
    method CheckLn(source: Path, dest: Path) returns (r: Option<(nat, nat, Name)>)
      requires Valid() && Sane(Snap()) && 0 !in source && 0 !in dest
      ensures r == LnTarget(Snap(), source, dest)
    {
      if !IsAbsolute(source) || !IsAbsolute(dest) || |FileName(dest)| > 255 {
        return None;
      }
      var from := InodeByFilepath(source);
      if from == None {
        return None;
      }
      PartsOfText(dest);
      var dir := InodeByFilepath(FilePath(dest));
      if dir == None {
        return None;
      }
      var there := InodeByFilepath(dest);
      if there.Some? || IsDir(inodes[from.value].mode) {
        return None;
      }
      return Some((from.value, dir.value, FileName(dest)));
    }

    method RunLn(source: Path, dest: Path) returns (ok: bool)
      requires Valid() && Runnable(Snap(), Ln(source, dest)) && 0 !in source && 0 !in dest
      modifies Repr
      ensures Valid() && (Snap(), ok) == Step(old(Snap()), Ln(source, dest))
    {
      var t := CheckLn(source, dest);
      if t == None {
        return false;
      }
      ok := NewDirEntry(t.value.1, t.value.0, t.value.2, FT_REG_FILE);
    }

    method RunLnS(source: Path, dest: Path, now: nat) returns (ok: bool)
      requires Valid() && Runnable(Snap(), LnS(source, dest, now)) && 0 !in source && 0 !in dest
      modifies Repr
      ensures Valid() && (Snap(), ok) == Step(old(Snap()), LnS(source, dest, now))
    {
      var t := CheckLn(source, dest);
      if t == None {
        return false;
      }
      ok := AddFile(t.value.1, t.value.2, S_IFLNK, FT_SYMLINK, source, now);
    }

    method RunRm(path: Path) returns (ok: bool)
      requires Valid() && Runnable(Snap(), Rm(path)) && 0 !in path && AllInside(Snap())
      modifies Repr
      ensures Valid() && (Snap(), ok) == Step(old(Snap()), Rm(path))
    {
      if !IsAbsolute(path) {
        return false;
      }
      var file := InodeByFilepath(path);
      if file == None || IsDir(inodes[file.value].mode) {
        return false;
      }
      PartsOfText(path);
      var dir := InodeByFilepath(FilePath(path));
      if dir == None {
        return false;
      }
      ok := RmDirEntry(dir.value, FileName(path));
    }

    method RunRestore(path: Path) returns (ok: bool)
      requires Valid() && Runnable(Snap(), Restore(path)) && 0 !in path && AllInside(Snap())
      modifies Repr
      ensures Valid() && (Snap(), ok) == Step(old(Snap()), Restore(path))
    {
      if !IsAbsolute(path) {
        return false;
      }
      var file := InodeByFilepath(path);
      if file.Some? {
        return false;
      }
      PartsOfText(path);
      var dir := InodeByFilepath(FilePath(path));
      if dir == None {
        return false;
      }
      var done, stopped := RestoreDirEntry(dir.value, FileName(path));
      ok := done && !stopped;
    }
  }
}

/**
 * What every command keeps: counters equal the clear bits, no block has two owners, every owned
 * block is marked, directories are sound, and link counts are the numbers of live records.
 */
module Invariant {
  import opened Bytes
  import opened Records
  import opened DiskState
  import opened Directory

  // ---------- allocation ----------

  ghost predicate Counted(s: State) {
    && s.sbFreeBlocks == s.gdFreeBlocks == |FreeBlocks(s)|
    && s.sbFreeInodes == s.gdFreeInodes == |FreeInodes(s)|
  }

  /** A pointer list without indirection: distinct blocks of the disk, then zeros only. */
  ghost predicate PointersOk(ptr: Pointers, size: nat) {
    && (forall j :: NumDirect(ptr) <= j < POINTERS ==> ptr[j] == 0)
    && (forall j :: 0 <= j < NumDirect(ptr) ==> ptr[j] < size)
    && (forall i, j :: 0 <= i < j < NumDirect(ptr) ==> ptr[i] != ptr[j])
  }

  ghost function Owned(s: State, n: nat): set<nat>
    requires n < |s.inodes|
  { set p | p in Direct(s.inodes[n].ptr) }

  ghost predicate Used(s: State, n: nat) { n < |s.inodes| && n < |s.inodeBits| && s.inodeBits[n] }

  ghost predicate MarksOwned(s: State, n: nat)
    requires n < |s.inodes|
  {
    forall p :: p in Owned(s, n) ==>
      0 < p < |s.blocks| && s.dataStart <= p && p - 1 < |s.blockBits| && s.blockBits[p - 1]
  }

  /** The blocks before the data are marked, so that they are never handed out. */
  ghost predicate SystemMarked(s: State) {
    0 < s.dataStart && forall k :: 0 <= k < |s.blockBits| && k + 1 < s.dataStart ==> s.blockBits[k]
  }

  ghost predicate AllocOk(s: State) {
    && Shaped(s) && Counted(s) && SystemMarked(s)
    && (forall n :: 0 <= n < |s.inodes| ==> PointersOk(s.inodes[n].ptr, |s.blocks|))
    && (forall n :: Used(s, n) ==> MarksOwned(s, n))
    && (forall n, m :: Used(s, n) && Used(s, m) && n != m ==> Owned(s, n) !! Owned(s, m))
  }

  // ---------- directories and links ----------

  ghost predicate UsedDir(s: State, d: nat) { Used(s, d) && IsDir(s.inodes[d].mode) }

  /** The records of directory `d` that name inode number `ino`; none if `d` is no directory. */
  ghost function DirCount(s: State, d: nat, ino: nat): nat {
    if UsedDir(s, d) && DirOk(s, d) then Count(DirEntries(s, d), ino) else 0
  }

  /** The live records naming inode number `ino` in the first `k` inodes. */
  ghost function TotalTo(s: State, k: nat, ino: nat): nat {
    if k == 0 then 0 else TotalTo(s, k - 1, ino) + DirCount(s, k - 1, ino)
  }

  ghost function Total(s: State, ino: nat): nat { TotalTo(s, |s.inodes|, ino) }

  ghost predicate EntriesOk(s: State, d: nat)
    requires DirOk(s, d)
  {
    forall e :: e in DirEntries(s, d) ==> e.ino == 0 || Used(s, e.ino - 1)
  }

  ghost predicate DirSound(s: State, d: nat) {
    DirOk(s, d) && s.inodes[d].sectors / 2 == NumDirect(s.inodes[d].ptr) && EntriesOk(s, d)
  }

  /** The sector count of the directory goes with its blocks, which are distinct. */
  ghost predicate Tallied(s: State, d: nat) {
    && DirOk(s, d) && s.inodes[d].sectors / 2 == NumDirect(s.inodes[d].ptr)
    && PointersOk(s.inodes[d].ptr, |s.blocks|)
  }

  /** `exact`: every link is held by a live record.  Otherwise there may be links that none holds. */
  ghost predicate InodeSound(s: State, n: nat, exact: bool := true)
    requires n < |s.inodes| && n < |s.inodeBits|
  {
    && (if !Used(s, n) then s.inodes[n].links == 0
        else if exact then s.inodes[n].links == Total(s, n + 1)
        else s.inodes[n].links >= Total(s, n + 1))
    && s.inodes[n].links < 0x1_0000
    && (!Used(s, n) ==> !IsDir(s.inodes[n].mode) && !Reserved(n))
    && (Reserved(n) && !IsDir(s.inodes[n].mode) ==> s.inodes[n].links == 0)
  }

  ghost predicate TreeOk(s: State, exact: bool := true) {
    && Shaped(s) && UsedDir(s, ROOT)
    && (forall d :: UsedDir(s, d) ==> DirSound(s, d))
    && (forall n :: 0 <= n < |s.inodes| ==> InodeSound(s, n, exact))
  }

  ghost predicate Inv(s: State, exact: bool := true) { AllocOk(s) && TreeOk(s, exact) }

  // ---------- sums over the directories ----------

  lemma {:induction false} TotalShift(s: State, s': State, k: nat, ino: nat, d: nat, delta: int)
    requires forall e :: 0 <= e < k && e != d ==> DirCount(s', e, ino) == DirCount(s, e, ino)
    requires DirCount(s', d, ino) == DirCount(s, d, ino) + delta
    ensures TotalTo(s', k, ino) == TotalTo(s, k, ino) + (if d < k then delta else 0)
  {
    if k > 0 {
      TotalShift(s, s', k - 1, ino, d, delta);
    }
  }

  lemma {:induction false} TotalZero(s: State, k: nat, ino: nat)
    ensures TotalTo(s, k, ino) == 0 <==> forall d :: 0 <= d < k ==> DirCount(s, d, ino) == 0
  {
    if k > 0 {
      TotalZero(s, k - 1, ino);
    }
  }

  // ---------- several blocks ----------

  lemma {:induction false} LiveOfFrame(blocks: seq<Block>, blocks': seq<Block>, ps: seq<nat>)
    requires BlocksOk(blocks, ps) && |blocks'| == |blocks|
    requires forall j :: 0 <= j < |ps| ==> blocks'[ps[j]] == blocks[ps[j]]
    ensures BlocksOk(blocks', ps) && LiveOf(blocks', ps) == LiveOf(blocks, ps)
  {
    if ps != [] {
      LiveOfFrame(blocks, blocks', ps[1..]);
    }
  }

  /** Only block `ps[j]` changed: its chain is replaced, what is before and after stays. */
  lemma {:induction false} LiveOfChange(blocks: seq<Block>, blocks': seq<Block>, ps: seq<nat>, j: nat)
    returns (a: seq<Entry>, b: seq<Entry>)
    requires BlocksOk(blocks, ps) && j < |ps| && |blocks'| == |blocks| && BlockOk(blocks'[ps[j]])
    requires forall i :: 0 <= i < |ps| && i != j ==> blocks'[ps[i]] == blocks[ps[i]]
    ensures BlocksOk(blocks', ps)
    ensures LiveOf(blocks, ps) == a + Live(blocks[ps[j]]) + b
    ensures LiveOf(blocks', ps) == a + Live(blocks'[ps[j]]) + b
    ensures BlocksOk(blocks, ps[..j]) && a == LiveOf(blocks, ps[..j])
    decreases j
  {
    var head, tail := ps[0], ps[1..];
    if j == 0 {
      LiveOfFrame(blocks, blocks', tail);
      a, b := [], LiveOf(blocks, tail);
      ConcatNil(Live(blocks[head]));
      ConcatNil(Live(blocks'[head]));
    } else {
      var a': seq<Entry>;
      a', b := LiveOfChange(blocks, blocks', tail, j - 1);
      a := Live(blocks[head]) + a';
      assert ps[..j][0] == head && ps[..j][1..] == tail[..j - 1];
      ConcatFour(Live(blocks[head]), a', Live(blocks[ps[j]]), b);
      ConcatFour(Live(blocks[head]), a', Live(blocks'[ps[j]]), b);
    }
  }

  lemma ConcatNil<T>(a: seq<T>)
    ensures [] + a == a
  {
  }

  lemma ConcatFour<T>(a: seq<T>, b: seq<T>, c: seq<T>, d: seq<T>)
    ensures a + (b + c + d) == a + b + c + d
  {
  }

  // ---------- one directory changes, the others do not ----------

  ghost predicate SameDir(s: State, s': State, f: nat)
    requires f < |s.inodes| && f < |s'.inodes|
  {
    && s'.inodes[f].ptr == s.inodes[f].ptr && s'.inodes[f].sectors == s.inodes[f].sectors
    && |s'.blocks| == |s.blocks|
    && forall p :: p in Owned(s, f) && p < |s.blocks| ==> s'.blocks[p] == s.blocks[p]
  }

  lemma SameEntries(s: State, s': State, f: nat)
    requires f < |s.inodes| && f < |s'.inodes| && DirOk(s, f) && SameDir(s, s', f)
    ensures DirOk(s', f) && DirEntries(s', f) == DirEntries(s, f)
  {
    var ps := Direct(s.inodes[f].ptr);
    forall j | 0 <= j < |ps| ensures s'.blocks[ps[j]] == s.blocks[ps[j]] {
      assert ps[j] in Owned(s, f);
    }
    LiveOfFrame(s.blocks, s'.blocks, ps);
  }

  /** `c` gains `delta` links. */
  ghost predicate LinksMove(s: State, s': State, c: nat, delta: int) {
    && |s'.inodes| == |s.inodes| && s'.inodeBits == s.inodeBits
    && forall n :: 0 <= n < |s.inodes| ==>
         && s'.inodes[n].mode == s.inodes[n].mode
         && s'.inodes[n].links == s.inodes[n].links + (if n == c then delta else 0)
  }

  ghost predicate CountsMove(es: seq<Entry>, es': seq<Entry>, ino: nat, delta: int) {
    forall i :: i > 0 ==> Count(es', i) == Count(es, i) + (if i == ino then delta else 0)
  }

  lemma TotalsMove(s: State, s': State, d: nat, c: nat, delta: int)
    requires LinksMove(s, s', c, delta) && UsedDir(s, d)
    requires DirOk(s, d) && DirOk(s', d) && CountsMove(DirEntries(s, d), DirEntries(s', d), c + 1, delta)
    requires forall f :: UsedDir(s, f) && f != d ==> DirOk(s, f) && SameDir(s, s', f)
    ensures forall ino :: ino > 0 ==> Total(s', ino) == Total(s, ino) + (if ino == c + 1 then delta else 0)
  {
    forall f: nat, ino: nat | f != d ensures DirCount(s', f, ino) == DirCount(s, f, ino) {
      if UsedDir(s, f) { SameEntries(s, s', f); }
    }
    forall ino | ino > 0 ensures Total(s', ino) == Total(s, ino) + (if ino == c + 1 then delta else 0) {
      TotalShift(s, s', |s.inodes|, ino, d, if ino == c + 1 then delta else 0);
    }
  }

  lemma EntriesOkMove(s: State, s': State, d: nat, c: nat, delta: int)
    requires DirOk(s, d) && EntriesOk(s, d) && DirOk(s', d) && LinksMove(s, s', c, delta) && Used(s, c)
    requires CountsMove(DirEntries(s, d), DirEntries(s', d), c + 1, delta)
    ensures EntriesOk(s', d)
  {
    forall e | e in DirEntries(s', d) && e.ino != 0 ensures Used(s', e.ino - 1) {
      CountZero(DirEntries(s', d), e.ino);
      CountZero(DirEntries(s, d), e.ino);
      if e.ino != c + 1 {
        var x :| x in DirEntries(s, d) && x.ino == e.ino;
      }
    }
  }

  /** A record naming `c` came to, or left, directory `d`, and the link count of `c` followed. */
  lemma TreeMove(s: State, s': State, d: nat, c: nat, delta: int, exact: bool := true)
    requires TreeOk(s, exact) && Shaped(s') && LinksMove(s, s', c, delta) && UsedDir(s, d) && Used(s, c)
    requires (Reserved(c) ==> IsDir(s.inodes[c].mode)) && s.inodes[c].links + delta < 0x1_0000
    requires DirOk(s', d) && CountsMove(DirEntries(s, d), DirEntries(s', d), c + 1, delta)
    requires s'.inodes[d].sectors / 2 == NumDirect(s'.inodes[d].ptr)
    requires forall f :: UsedDir(s, f) && f != d ==> SameDir(s, s', f)
    ensures TreeOk(s', exact)
  {
    TotalsMove(s, s', d, c, delta);
    EntriesOkMove(s, s', d, c, delta);
    forall f | UsedDir(s', f) ensures DirSound(s', f) {
      assert UsedDir(s, f) && DirSound(s, f);
      if f != d {
        SameEntries(s, s', f);
        forall e | e in DirEntries(s', f) ensures e.ino == 0 || Used(s', e.ino - 1) {
          assert e in DirEntries(s, f);
        }
      }
    }
    forall n | 0 <= n < |s'.inodes| ensures InodeSound(s', n, exact) {
      assert InodeSound(s, n, exact);
    }
  }

  // ---------- an inode comes into use ----------

  lemma UnnamedFree(s: State, n: nat, exact: bool := true)
    requires TreeOk(s, exact) && n < |s.inodes| && !Used(s, n)
    ensures Total(s, n + 1) == 0
  {
    var ino := n + 1;
    forall d: nat | d < |s.inodes| ensures DirCount(s, d, ino) == 0 {
      if UsedDir(s, d) {
        assert DirSound(s, d);
        CountZero(DirEntries(s, d), ino);
      }
    }
    TotalZero(s, |s.inodes|, ino);
  }

  /** Inode `n` is now in use, with no link to it, and, if a directory, without blocks. */
  ghost predicate ComesIntoUse(s: State, s': State, n: nat) {
    && n < |s.inodes| == |s'.inodes| == |s.inodeBits| && !Used(s, n)
    && s'.blocks == s.blocks && s'.inodeBits == s.inodeBits[n := true]
    && (forall m :: 0 <= m < |s.inodes| && m != n ==> s'.inodes[m] == s.inodes[m])
    && s'.inodes[n].links == 0
    && (IsDir(s'.inodes[n].mode) ==>
          s'.inodes[n].sectors == 0 && NumDirect(s'.inodes[n].ptr) == 0 && s'.inodes[n].ptr[DIRECT] == 0)
  }

  lemma UsedDirs(s: State, s': State, n: nat, d: nat, exact: bool := true)
    requires TreeOk(s, exact) && |s.inodes| == |s.inodeBits| && ComesIntoUse(s, s', n) && UsedDir(s', d)
    ensures DirSound(s', d)
    ensures forall ino :: DirCount(s', d, ino) == DirCount(s, d, ino)
  {
    if d == n {
      assert DirEntries(s', n) == [];
    } else {
      assert UsedDir(s, d) && DirSound(s, d);
      SameEntries(s, s', d);
      assert forall e :: e in DirEntries(s, d) && e.ino != 0 ==> Used(s, e.ino - 1) && Used(s', e.ino - 1);
    }
  }

  lemma TreeNewInode(s: State, s': State, n: nat, exact: bool := true)
    requires TreeOk(s, exact) && Shaped(s') && ComesIntoUse(s, s', n)
    ensures TreeOk(s', exact)
  {
    UnnamedFree(s, n, exact);
    forall d: nat, ino: nat ensures DirCount(s', d, ino) == DirCount(s, d, ino) {
      if UsedDir(s', d) { UsedDirs(s, s', n, d, exact); }
    }
    forall d | UsedDir(s', d) ensures DirSound(s', d) { UsedDirs(s, s', n, d, exact); }
    forall m: nat | m < |s.inodes| ensures InodeSound(s', m, exact) {
      assert InodeSound(s, m, exact);
      TotalShift(s, s', |s.inodes|, m + 1, 0, 0);
    }
  }
}

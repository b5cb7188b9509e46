/** Bytes, the little-endian fields of the on-disk structures, and 1024-byte blocks. */
module Bytes {
  type Byte = x: int | 0 <= x < 256

  const BLOCK_SIZE := 1024
  type Block = b: seq<Byte> | |b| == BLOCK_SIZE witness seq(BLOCK_SIZE, _ => 0)

  // Unsigned C arithmetic.
  function U16(x: int): nat { x % 0x1_0000 }
  function U32(x: int): nat { x % 0x1_0000_0000 }

  function Get16(b: seq<Byte>, o: nat): nat
    requires o + 2 <= |b|
  {
    b[o] as int + 0x100 * b[o + 1] as int
  }

  function Put16(b: seq<Byte>, o: nat, v: nat): (r: seq<Byte>)
    requires o + 2 <= |b| && v < 0x1_0000
    ensures |r| == |b|
  {
    b[o := v % 0x100][o + 1 := v / 0x100]
  }

  lemma Put16Is(b: seq<Byte>, o: nat, v: nat)
    requires o + 2 <= |b| && v < 0x1_0000
    ensures Get16(Put16(b, o, v), o) == v
    ensures forall i :: 0 <= i < |b| && !(o <= i < o + 2) ==> Put16(b, o, v)[i] == b[i]
  {
  }

  function Get32(b: seq<Byte>, o: nat): nat
    requires o + 4 <= |b|
  {
    b[o] as int + 0x100 * b[o + 1] as int + 0x1_0000 * b[o + 2] as int + 0x100_0000 * b[o + 3] as int
  }

  function Put32(b: seq<Byte>, o: nat, v: nat): (r: seq<Byte>)
    requires o + 4 <= |b| && v < 0x1_0000_0000
    ensures |r| == |b|
  {
    b[o := v % 0x100][o + 1 := v / 0x100 % 0x100][o + 2 := v / 0x1_0000 % 0x100][o + 3 := v / 0x100_0000]
  }

  lemma Digits(v: nat)
    requires v < 0x1_0000_0000
    ensures v % 0x100 + 0x100 * (v / 0x100 % 0x100) + 0x1_0000 * (v / 0x1_0000 % 0x100) + 0x100_0000 * (v / 0x100_0000)
         == v
  {
    assert v / 0x1_0000 == v / 0x100 / 0x100 && v / 0x100_0000 == v / 0x1_0000 / 0x100;
  }

  lemma Put32Is(b: seq<Byte>, o: nat, v: nat)
    requires o + 4 <= |b| && v < 0x1_0000_0000
    ensures Get32(Put32(b, o, v), o) == v
    ensures forall i :: 0 <= i < |b| && !(o <= i < o + 4) ==> Put32(b, o, v)[i] == b[i]
  {
    Digits(v);
  }

  /** memcpy/strncpy of `bs` to offset `o`. */
  function PutBytes(b: seq<Byte>, o: nat, bs: seq<Byte>): (r: seq<Byte>)
    requires o + |bs| <= |b|
    ensures |r| == |b|
  {
    b[..o] + bs + b[o + |bs|..]
  }

  lemma PutBytesIs(b: seq<Byte>, o: nat, bs: seq<Byte>)
    requires o + |bs| <= |b|
    ensures PutBytes(b, o, bs)[o..o + |bs|] == bs
    ensures forall i :: 0 <= i < |b| && !(o <= i < o + |bs|) ==> PutBytes(b, o, bs)[i] == b[i]
  {
  }

  /** The two sequences hold the same bytes at the positions lo..hi. */
  ghost predicate Agree(b: seq<Byte>, b': seq<Byte>, lo: nat, hi: nat)
    requires |b| == |b'|
  {
    forall i :: lo <= i < hi && i < |b| ==> b[i] == b'[i]
  }
}

/** Bitmaps: the bytes that the program shifts and masks, and the bits they stand for. */
module Bitmaps {
  function Bit(b: bv8, j: nat): bool
    requires j < 8
  { 1 & (b >> j) == 1 }

  lemma SetBit(b: bv8, j: nat, i: nat)
    requires i < 8 && j < 8
    ensures Bit(b | (1 << j), i) == (i == j || Bit(b, i))
  {
    if j == 0 {} else if j == 1 {} else if j == 2 {} else if j == 3 {}
    else if j == 4 {} else if j == 5 {} else if j == 6 {} else {}
  }

  lemma ClearBit(b: bv8, j: nat, i: nat)
    requires i < 8 && j < 8
    ensures Bit(b & !(1 << j), i) == (i != j && Bit(b, i))
  {
    if j == 0 {} else if j == 1 {} else if j == 2 {} else if j == 3 {}
    else if j == 4 {} else if j == 5 {} else if j == 6 {} else {}
  }

  ghost function Bits(a: seq<bv8>): seq<bool> {
    seq(8 * |a|, k requires 0 <= k < 8 * |a| => Bit(a[k / 8], k % 8))
  }

  /** The clear bits, without those that count as taken whatever the bitmap says. */
  ghost function Clear(bits: seq<bool>, skip: nat -> bool): set<nat> {
    set k | 0 <= k < |bits| && !bits[k] && !skip(k)
  }

  lemma BitsSet(a: seq<bv8>, n: nat)
    requires n < 8 * |a|
    ensures Bits(a[n / 8 := a[n / 8] | (1 << (n % 8))]) == Bits(a)[n := true]
  {
    var a' := a[n / 8 := a[n / 8] | (1 << (n % 8))];
    forall k | 0 <= k < 8 * |a| ensures Bit(a'[k / 8], k % 8) == (k == n || Bit(a[k / 8], k % 8)) {
      if k / 8 == n / 8 { SetBit(a[n / 8], n % 8, k % 8); }
    }
  }

  lemma BitsUnset(a: seq<bv8>, n: nat)
    requires n < 8 * |a|
    ensures Bits(a[n / 8 := a[n / 8] & !(1 << (n % 8))]) == Bits(a)[n := false]
  {
    var a' := a[n / 8 := a[n / 8] & !(1 << (n % 8))];
    forall k | 0 <= k < 8 * |a| ensures Bit(a'[k / 8], k % 8) == (k != n && Bit(a[k / 8], k % 8)) {
      if k / 8 == n / 8 { ClearBit(a[n / 8], n % 8, k % 8); }
    }
  }

  method SetBitByIndex(a: array<bv8>, n: nat)
    requires n < 8 * a.Length
    modifies a
    ensures Bits(a[..]) == Bits(old(a[..]))[n := true]
  {
    BitsSet(a[..], n);
    ghost var was := a[..];
    a[n / 8] := a[n / 8] | (1 << (n % 8));
    assert a[..] == was[n / 8 := was[n / 8] | (1 << (n % 8))];
  }

  method UnsetBitByIndex(a: array<bv8>, n: nat)
    requires n < 8 * a.Length
    modifies a
    ensures Bits(a[..]) == Bits(old(a[..]))[n := false]
  {
    BitsUnset(a[..], n);
    ghost var was := a[..];
    a[n / 8] := a[n / 8] & !(1 << (n % 8));
    assert a[..] == was[n / 8 := was[n / 8] & !(1 << (n % 8))];
  }

  method IsBitSetByIndex(a: array<bv8>, n: nat) returns (r: bool)
    requires n < 8 * a.Length
    ensures r == Bits(a[..])[n]
  {
    r := 1 & (a[n / 8] >> (n % 8)) == 1;
  }

  /** The scan of block_find and inode_find: byte by byte, bit by bit. */
  method FindFirst(a: array<bv8>, skip: nat -> bool) returns (found: bool, n: nat)
    ensures found <==> Clear(Bits(a[..]), skip) != {}
    ensures found ==> n in Clear(Bits(a[..]), skip)
    ensures found ==> forall k :: k in Clear(Bits(a[..]), skip) ==> n <= k
  {
    n := 0;
    for i := 0 to a.Length
      invariant forall k :: k in Clear(Bits(a[..]), skip) ==> 8 * i <= k
    {
      for j := 0 to 8
        invariant forall k :: k in Clear(Bits(a[..]), skip) ==> 8 * i + j <= k
      {
        n := 8 * i + j;
        var set_ := IsBitSetByIndex(a, n);
        if !skip(n) && !set_ {
          assert n in Clear(Bits(a[..]), skip);
          return true, n;
        }
      }
    }
    found := false;
    assert Clear(Bits(a[..]), skip) == {};
  }

  /** The counting pass of the checker. */
  method CountClear(a: array<bv8>, skip: nat -> bool) returns (c: nat)
    ensures c == |Clear(Bits(a[..]), skip)|
  {
    c := 0;
    ghost var bits := Bits(a[..]);
    assert Clear(bits[..0], skip) == {};
    for i := 0 to a.Length
      invariant c == |Clear(bits[..8 * i], skip)|
    {
      for j := 0 to 8
        invariant c == |Clear(bits[..8 * i + j], skip)|
      {
        var n := 8 * i + j;
        var set_ := IsBitSetByIndex(a, n);
        ClearStep(bits, n, skip);
        if !skip(n) && !set_ {
          c := c + 1;
        }
      }
    }
    assert bits[..8 * a.Length] == bits;
  }

  lemma ClearStep(bits: seq<bool>, n: nat, skip: nat -> bool)
    requires n < |bits|
    ensures |Clear(bits[..n + 1], skip)| == |Clear(bits[..n], skip)| + (if !bits[n] && !skip(n) then 1 else 0)
  {
    var c := Clear(bits[..n], skip);
    if !bits[n] && !skip(n) {
      assert Clear(bits[..n + 1], skip) == c + {n};
    } else {
      assert Clear(bits[..n + 1], skip) == c;
    }
  }
}

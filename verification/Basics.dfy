/** Small shared vocabulary: bytes, optional values and the C conversions the sources rely on. */
module Basics {

  type byte = bv8

  lemma NextByte(b: byte)
    requires (b as int) < 255
    ensures (b + 1) as int == (b as int) + 1
  {
  }

  lemma FromByte(b: byte)
    ensures (b as int) as byte == b
  {
  }

  lemma {:induction false} SomeByte(d: nat) returns (b: byte)
    requires d < 256
    ensures b as int == d
  {
    if d == 0 {
      b := 0;
    } else {
      b := SomeByte(d - 1);
      NextByte(b);
      b := b + 1;
    }
  }

  /** Converting a small number to a byte and back: some byte has that number, and conversion leads back to it. */
  lemma CastValue(d: int)
    requires 0 <= d < 256
    ensures (d as byte) as int == d
  {
    var b := SomeByte(d);
    FromByte(b);
  }

  datatype Option<+T> = None | Some(value: T)

  function Min(x: int, y: int): int { if x < y then x else y }

  function Max(x: int, y: int): int { if x < y then y else x }

  /** C's conversion of a floating-point value to int: the fraction is discarded. */
  function Trunc(r: real): int {
    if r >= 0.0 then r.Floor else -((-r).Floor)
  }

  /** C's conversion of a uint32_t to int32_t. */
  function ToInt32(x: int): int {
    var m := x % 0x1_0000_0000;
    if m < 0x8000_0000 then m else m - 0x1_0000_0000
  }

  /** r is the elements of s whose mask bit is set, in their order; pos says where they were. */
  predicate Sieved<T(==)>(s: seq<T>, mask: seq<bool>, r: seq<T>, pos: seq<nat>) {
    && |s| == |mask| && |r| == |pos|
    && (forall k :: 0 <= k < |pos| ==> pos[k] < |s| && mask[pos[k]] && r[k] == s[pos[k]])
    && (forall k, l :: 0 <= k < l < |pos| ==> pos[k] < pos[l])
    && (forall i :: 0 <= i < |s| && mask[i] ==> i in pos)
  }

  lemma SieveNext<T>(s: seq<T>, mask: seq<bool>, r: seq<T>, pos: seq<nat>)
    requires s != [] && |s| == |mask| && Sieved(s[..|s| - 1], mask[..|s| - 1], r, pos)
    ensures var n := |s| - 1;
            if mask[n] then Sieved(s, mask, r + [s[n]], pos + [n]) else Sieved(s, mask, r, pos)
  {
    var n := |s| - 1;
    forall i | 0 <= i < n
      ensures s[i] == s[..n][i] && mask[i] == mask[..n][i]
    {
    }
    var pos' := pos + [n];
    forall i | 0 <= i < |s| && mask[i]
      ensures i in pos'
    {
      if i < n { assert mask[..n][i]; } else { assert pos'[|pos|] == n; }
    }
  }
}

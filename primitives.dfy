/** Value types shared by the whole model: options, bytes, 32-bit signed integers
    and the length of the longest prefix of a sequence satisfying a predicate. */
module Primitives {

  datatype Option<T> = None | Some(value: T)

  /** The C# `byte`. */
  newtype byte = x: int | 0 <= x < 0x100

  const Int32Min: int := -0x8000_0000
  const Int32Max: int := 0x7FFF_FFFF

  /** The range of the C# `int`. */
  predicate IsInt32(x: int) {
    Int32Min <= x <= Int32Max
  }

  /** Unchecked C# `int` arithmetic: the two's-complement value congruent to `x`
      modulo 2^32. */
  function Wrap32(x: int): (r: int)
    ensures IsInt32(r)
    ensures (x - r) % 0x1_0000_0000 == 0
    ensures IsInt32(x) ==> r == x
  {
    (x - Int32Min) % 0x1_0000_0000 + Int32Min
  }

  /** An unchecked `(byte)` cast of a non-negative integer: its low eight bits. */
  function ToByte(x: nat): (b: byte)
    ensures (x - b as int) % 0x100 == 0
    ensures x < 0x100 ==> b as int == x
  {
    (x % 0x100) as byte
  }

  /** Length of the longest prefix of `s` whose elements all satisfy `p`. */
  function PrefixLength<T>(s: seq<T>, p: T -> bool): (k: nat)
    ensures k <= |s|
    ensures forall i :: 0 <= i < k ==> p(s[i])
    ensures k < |s| ==> !p(s[k])
  {
    if s == [] || !p(s[0]) then 0 else 1 + PrefixLength(s[1..], p)
  }
}

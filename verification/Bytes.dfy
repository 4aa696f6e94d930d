/** Machine-width integers and small helpers shared by every module. */
module Bytes {

  const TWO16: nat := 0x1_0000
  const TWO31: nat := 0x8000_0000
  const TWO32: nat := 0x1_0000_0000
  const TWO64: nat := 0x1_0000_0000_0000_0000

  type byte = b: int | 0 <= b < 0x100
  type uint16 = n: int | 0 <= n < TWO16
  type uint32 = n: int | 0 <= n < TWO32
  type uint64 = n: int | 0 <= n < TWO64

  datatype Option<+T> = None | Some(value: T)

  function Min(a: nat, b: nat): nat { if a <= b then a else b }

  function Max(a: int, b: int): int { if a >= b then a else b }

  /** What is left of `s` behind its first `n` elements. */
  function Skip<T>(s: seq<T>, n: nat): (t: seq<T>)
    requires n <= |s|
    ensures |t| == |s| - n
  {
    if n == 0 then s else s[n..]
  }

  function Abs(a: int): nat { if a >= 0 then a else -a }
}

/** Types shared by every module: optional values, and Go's 64-bit signed int. */
module Basics {

  datatype Option<+T> = None | Some(value: T)

  const MAX_INT: int := 0x7FFF_FFFF_FFFF_FFFF
  const MIN_INT: int := -0x8000_0000_0000_0000

  /** Go's int on a 64-bit platform. */
  type Int64 = n: int | MIN_INT <= n <= MAX_INT

  /** The value a 64-bit addition or subtraction leaves behind: two's-complement wrap-around. */
  function Wrap(n: int): Int64 {
    (n - MIN_INT) % 0x1_0000_0000_0000_0000 + MIN_INT
  }

  lemma WrapSum(a: int, b: int)
    ensures Wrap(Wrap(a) + b) == Wrap(a + b)
  {
  }

  lemma WrapOfInt(n: Int64)
    ensures Wrap(n) == n
  {
  }

  lemma WrapCongruent(a: int, b: int, d: int)
    requires Wrap(a) == Wrap(b)
    ensures Wrap(a + d) == Wrap(b + d)
  {
    WrapSum(a, d);
    WrapSum(b, d);
  }

  function Min(a: int, b: int): int {
    if a <= b then a else b
  }

  /** The last k elements of s, or all of s when it has no more than k. */
  function LastOf<T>(s: seq<T>, k: nat): seq<T> {
    if |s| <= k then s else s[|s| - k..]
  }
}

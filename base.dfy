// Shared value types: Go's optional results, fixed-width integers.

module Base {

  /** A value that may be absent: Go's `(T, error)` with a nil error, or a map lookup. */
  datatype Option<+T> = None | Some(value: T)

  const MinInt64: int := -0x8000_0000_0000_0000
  const MaxInt64: int :=  0x7FFF_FFFF_FFFF_FFFF
  const MinInt32: int := -0x8000_0000
  const MaxInt32: int :=  0x7FFF_FFFF

  /** Go's `int64`. */
  type int64 = x: int | MinInt64 <= x <= MaxInt64

  predicate InInt64(x: int) { MinInt64 <= x <= MaxInt64 }

  /** Go's signed 32-bit arithmetic: the result is reduced modulo 2^32 into the int32 range. */
  function Wrap32(x: int): (r: int)
    ensures MinInt32 <= r <= MaxInt32
    ensures (x - r) % 0x1_0000_0000 == 0
    ensures MinInt32 <= x <= MaxInt32 ==> r == x
  {
    var m := x % 0x1_0000_0000;
    if m <= MaxInt32 then m else m - 0x1_0000_0000
  }

  /** Go's unary minus on an int64: it wraps, so the most negative value is its own negation. */
  function Neg64(x: int64): (r: int64)
    ensures x != MinInt64 ==> r == -x
    ensures x == MinInt64 ==> r == x
  {
    if x == MinInt64 then x else -x
  }
}

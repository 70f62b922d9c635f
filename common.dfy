/** Small building blocks shared by the other modules: Go's integer semantics and an Option type. */
module Common {

  /** The value of a Go `error`-typed result or of an optional value: `None` plays the role of nil. */
  datatype Option<+T> = None | Some(value: T)

  const Int64Min: int := -0x8000_0000_0000_0000
  const Int64Max: int := 0x7FFF_FFFF_FFFF_FFFF

  /** The values of Go's `int64` (and of `int` on a 64-bit platform). */
  predicate IsInt64(x: int) {
    Int64Min <= x <= Int64Max
  }

  /** Go's integer `/` for a positive divisor: the quotient is truncated toward zero,
      so the remainder takes the sign of the dividend (Dafny's `/` is Euclidean). */
  function TruncDiv(a: int, b: int): (q: int)
    requires b > 0
    ensures a >= 0 ==> 0 <= q && 0 <= a - q * b < b
    ensures a < 0 ==> -b < a - q * b <= 0
  {
    if a >= 0 then a / b else -((-a) / b)
  }
}

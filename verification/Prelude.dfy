/** Small vocabulary shared by every module: optional values, results and Go's 64-bit arithmetic. */
module Prelude {
  datatype Option<+T> = None | Some(value: T)

  datatype Result<+T, +E> = Success(value: T) | Failure(error: E)

  const TWO63: int := 0x8000_0000_0000_0000
  const TWO64: int := 0x1_0000_0000_0000_0000

  /** Go's int64; time.Duration is an Int64 counting nanoseconds. */
  type Int64 = x: int | -TWO63 <= x < TWO63

  const MAX_INT64: Int64 := TWO63 - 1
  const SECOND: Int64 := 1_000_000_000
  const MILLISECOND: Int64 := 1_000_000

  /** What a 64-bit signed register holds after a computation whose exact value is x. */
  function Wrap64(x: int): Int64 {
    (x + TWO63) % TWO64 - TWO63
  }

  /** A register is exact on precisely the int64 range. */
  lemma WrapExact(x: int)
    ensures Wrap64(x) == x <==> -TWO63 <= x < TWO63
  {
  }

  /** Go's integer division, which truncates toward zero. */
  function Quot(a: int, b: int): int
    requires b > 0
  {
    if a >= 0 then a / b else -(-a / b)
  }

  function Min(a: int, b: int): int {
    if a <= b then a else b
  }

  function Max(a: int, b: int): int {
    if a >= b then a else b
  }
}

/** Result types and the machine-integer conversions the Go source relies on. */
module Prelude {

  datatype Option<+T> = None | Some(value: T)

  datatype Result<+T, +E> = Ok(value: T) | Err(error: E)

  const TWO_TO_THE_31: int := 0x8000_0000
  const TWO_TO_THE_32: int := 0x1_0000_0000
  const TWO_TO_THE_64: int := 0x1_0000_0000_0000_0000

  type Int32 = n: int | -TWO_TO_THE_31 <= n < TWO_TO_THE_31

  type Uint64 = n: int | 0 <= n < TWO_TO_THE_64

  function Max(a: int, b: int): int {
    if a < b then b else a
  }

  function Min(a: int, b: int): int {
    if a < b then a else b
  }

  /** Go's `int32(n)`: keep the low 32 bits and read them as two's complement. */
  function ToInt32(n: Uint64): (r: Int32)
    ensures n < TWO_TO_THE_31 ==> r == n
  {
    var low := n % TWO_TO_THE_32;
    if low < TWO_TO_THE_31 then low else low - TWO_TO_THE_32
  }

  /** Go's `uint64(n)` for an int32: sign extension, then reinterpretation. */
  function ToUint64(n: Int32): (r: Uint64)
    ensures 0 <= n ==> r == n
    ensures ToInt32(r) == n
  {
    if n < 0 then n + TWO_TO_THE_64 else n
  }

  /** `n - 1` in int32 arithmetic. */
  function Pred32(n: Int32): (r: Int32)
    ensures -TWO_TO_THE_31 < n ==> r == n - 1
  {
    if n == -TWO_TO_THE_31 then TWO_TO_THE_31 - 1 else n - 1
  }
}

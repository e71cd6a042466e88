/** Small value types shared by the three components of the model. */
module Primitives {

  /** A value that may be absent; stands for a nullable reference or string. */
  datatype Option<+T> = None | Some(value: T)

  /** The outcome of an operation that either completes or reports an error. */
  datatype Outcome<+E> = Pass | Fail(error: E)

  /** A signed 32-bit integer (`int32_t` in C++, `int` in C#). */
  newtype int32 = x: int | -0x8000_0000 <= x < 0x8000_0000

  function Abs(x: real): (r: real)
    ensures r >= 0.0
    ensures r == x || r == -x
  {
    if x < 0.0 then -x else x
  }
}

/** Small value types shared by every module of the model. */
module Basics {

  /** A value that may be absent: JavaScript's `null`/`undefined` next to a value. */
  datatype Option<+T> = None | Some(value: T)

  /**
   * The outcome of an HTTP route handler: a success body with its status code,
   * or an error message with its status code (`{ success: false, error }`).
   */
  datatype Response<+T> = Ok(status: nat, body: T) | Err(status: nat, error: string)

  /** One byte of a digest. */
  newtype byte = x: int | 0 <= x < 256

  function Max(a: int, b: int): int { if a >= b then a else b }

  function Min(a: int, b: int): int { if a <= b then a else b }

  function RealMin(a: real, b: real): real { if a <= b then a else b }

  function RealMax(a: real, b: real): real { if a >= b then a else b }

  /** JavaScript's `Math.round`: the nearest integer, halves rounded up. */
  function Round(x: real): (n: int)
    ensures n as real - 0.5 <= x < n as real + 0.5
  {
    (x + 0.5).Floor
  }
}

/** Small value types shared by every part of the model. */
module Common {

  /** A value that may be absent, standing for a null pointer or a "no hit" answer. */
  datatype Option<+T> = None | Some(value: T)

  /** A computation that either yields a value or fails with a message (a thrown exception). */
  datatype Result<+T> = Ok(value: T) | Err(message: string)

  /** An unsigned char of a pixel buffer or an image. */
  newtype byte = b: int | 0 <= b < 256

  function Min(a: real, b: real): real { if a <= b then a else b }

  function Max(a: real, b: real): real { if a >= b then a else b }

  /** C++ conversion of an int quotient: truncation toward zero. */
  function TruncDiv(a: int, b: int): int
    requires b != 0
  {
    if (a >= 0) == (b > 0) then (if a >= 0 then a / b else (-a) / (-b))
    else -((if a >= 0 then a else -a) / (if b > 0 then b else -b))
  }

  /** C++ `%` on ints: the remainder takes the sign of the dividend. */
  function TruncMod(a: int, b: int): int
    requires b != 0
  {
    a - b * TruncDiv(a, b)
  }

  /** C++ conversion of a double to an int: truncation toward zero. */
  function Trunc(x: real): int
  {
    if x >= 0.0 then x.Floor else -((-x).Floor)
  }
}

/** Value types and directions shared by the models. */
module Util {

  /** A value that may be absent (the source's `Optional[T]` and `None`). */
  datatype Option<+T> = None | Some(value: T)

  /** A computation that returns a value or raises; message texts are not modelled. */
  datatype Result<+T, +E> = Ok(value: T) | Err(error: E)

  /** A number that may be NaN or infinite. */
  datatype Float = NotFinite | Finite(value: real) {
    /** Finite and not negative. */
    predicate Legal() { Finite? && value >= 0.0 }
  }

  const FORWARD: string := "forward"
  const REVERSE: string := "reverse"

  predicate IsDirection(d: string) { d == FORWARD || d == REVERSE }

  function Reversed<T>(s: seq<T>): seq<T> { seq(|s|, i requires 0 <= i < |s| => s[|s| - 1 - i]) }

  function Min(a: int, b: int): int { if a <= b then a else b }

  function Max(a: int, b: int): int { if a >= b then a else b }
}

/**
 * The few Java notions the model needs: a possibly-null reference
 * (`Option`), a call that may throw (`Result`) and the 32-bit `int`.
 */
module JavaTypes {

  /** A Java reference that may be `null` (`None`). */
  datatype Option<+T> = None | Some(value: T)

  /** The outcome of a Java call that either returns a value or throws. */
  datatype Result<+T> = Success(value: T) | Failure(error: Error)

  /** The exceptions the core throws, with what `getMessage()` would show. */
  datatype Error =
    | IllegalArgument(message: string)
    | NumberFormat(input: string)

  const INT_MIN: int := -0x8000_0000
  const INT_MAX: int := 0x7fff_ffff

  /** Java's `int`. */
  type int32 = x: int | INT_MIN <= x <= INT_MAX
}

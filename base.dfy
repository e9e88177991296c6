/** Types shared by every package of the model: Go's `byte`, and Option / Result
    for values that Go expresses with nil pointers and `error` returns. */
module Base {

  /** Go's `byte`: an unsigned 8-bit integer. */
  newtype byte = x: int | 0 <= x < 256

  /** Go's `[]byte`. */
  type Bytes = seq<byte>

  datatype Option<+T> = None | Some(value: T)

  /** A value or the error a Go call returned instead. */
  datatype Result<+T> = Success(value: T) | Failure(error: string)
}

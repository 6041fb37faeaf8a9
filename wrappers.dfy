/** Option and Result values shared by the store model and the cache handler. */
module Wrappers {

  /** A value that may be absent (`null` in the source). */
  datatype Option<+T> = None | Some(value: T)

  /** The error a store command can report. */
  datatype StoreError =
    /** Redis `WRONGTYPE`: the key holds a value of another type than the command works on. */
    | WrongType

  /** The reply of a store command: a value, or the error the command raised. */
  datatype Result<+T> = Ok(value: T) | Err(error: StoreError)
}

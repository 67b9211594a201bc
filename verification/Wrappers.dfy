/** Failure-compatible datatypes and the octet type shared by every module. */
module Wrappers {

  datatype Option<+T> = None | Some(value: T)

  datatype Result<+T, +E> = Ok(value: T) | Err(error: E) {

    predicate IsFailure() {
      Err?
    }

    function PropagateFailure<U>(): Result<U, E>
      requires Err?
    {
      Err(error)
    }

    function Extract(): T
      requires Ok?
    {
      value
    }
  }

  /** An octet: Rust's `u8`. */
  type Byte = x: int | 0 <= x < 0x100

  /** The largest `usize` of a 64-bit target. */
  const USIZE_MAX := 0xFFFF_FFFF_FFFF_FFFF
}

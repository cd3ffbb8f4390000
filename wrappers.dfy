/** Failure-compatible Option and Result, used for Python's `None` and for
    operations that raise. */
module Wrappers {

  datatype Option<+T> = None | Some(value: T) {
    predicate IsFailure() { None? }

    function PropagateFailure<U>(): Option<U>
      requires None?
    {
      None
    }

    function Extract(): T
      requires Some?
    {
      value
    }
  }

  /** The exceptions the modelled code raises. */
  datatype Error =
    | FormatError      // ValueError from a malformed wire string or an int() that fails
    | DecodeError      // binascii.Error / zlib.error from a corrupt payload
    | NoResource       // ValueError("No resource given") from a stream without a locator
    | NotFound         // StopIteration / IndexError from a lookup that finds nothing
    | EmptyReduce      // TypeError from reduce() over an empty list

  datatype Result<+R> = Success(value: R) | Failure(error: Error) {
    predicate IsFailure() { Failure? }

    function PropagateFailure<U>(): Result<U>
      requires Failure?
    {
      Failure(error)
    }

    function Extract(): R
      requires Success?
    {
      value
    }
  }
}

/** Nullable cells and fallible steps: `Option` stands for a data-frame cell
    or XML child that may be absent, `Result` for a conversion step that
    either yields a value or raises one of the errors in `Errors`. */
module Wrappers {

  /** A value that may be missing, like a null cell of a data frame. */
  datatype Option<+T> = None | Some(value: T)

  /** Either a computed value or the error that aborts the computation. */
  datatype Result<+R, +E> = Success(value: R) | Failure(error: E) {

    predicate IsFailure() {
      Failure?
    }

    function PropagateFailure<U>(): Result<U, E>
      requires Failure?
    {
      Failure(error)
    }

    function Extract(): R
      requires Success?
    {
      value
    }
  }
}

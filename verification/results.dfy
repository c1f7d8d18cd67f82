/** Failure-compatible wrappers used by the converter: `Option` for the
    source's optional parameters and fields (`name?`, `target`), and
    `Result` for the conversions that may throw. */
module Results {

  /** An optional value: `None` stands for the source's `undefined`. */
  datatype Option<+T> = None | Some(value: T)

  /** The outcome of a conversion that may throw: `Failure` carries the
      thrown error's message. Usable with `:-`. */
  datatype Result<+T, +E> = Success(value: T) | Failure(error: E) {

    predicate IsFailure() {
      Failure?
    }

    function PropagateFailure<U>(): Result<U, E>
      requires Failure?
    {
      Failure(error)
    }

    function Extract(): T
      requires Success?
    {
      value
    }
  }
}

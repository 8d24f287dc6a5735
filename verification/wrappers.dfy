/** Failure-compatible result type and the Python exception kinds the
    field-specification pipeline can raise. */
module Wrappers {

  /** The exceptions raised by the builders and the preprocessing transforms.
      `AssertionError` comes from the `assert` statements that check
      declarations, `KeyError` from a missing dictionary key, `TypeError`
      from an operation applied to a value of the wrong kind,
      `AttributeError` from a method looked up on a value that lacks it, and
      `ValueError` from `int()`, the unpacking of a split, and base64
      decoding (whose error is a subclass of `ValueError`). */
  datatype Error =
    | AssertionError(message: string)
    | KeyError(key: string)
    | TypeError(message: string)
    | AttributeError(message: string)
    | ValueError(message: string)

  datatype Result<+T> = Ok(value: T) | Err(error: Error) {

    predicate IsFailure() {
      Err?
    }

    function PropagateFailure<U>(): Result<U>
      requires Err?
    {
      Err(error)
    }

    function Extract(): T
      requires Ok?
    {
      value
    }
  }
}

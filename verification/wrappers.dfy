/** Failure-compatible wrappers shared by every module of the model, and the
    closed set of exceptions the modelled Python code can raise. */
module Wrappers {

  /** `None` in the source is modelled by `None` here. */
  datatype Option<+T> = None | Some(value: T)

  /** The exceptions the modelled code raises, by Python class name. */
  datatype Error =
    | InvalidArgument   // mabel.errors.InvalidArgument
    | TypeError
    | KeyError
    | IndexError
    | ValueError
    | AttributeError
    | StopIteration     // `next` on an exhausted iterator outside a generator
    | RuntimeError      // StopIteration escaping a generator (PEP 479)
    | TokenError        // token_labeler.TokenError

  datatype Result<+T> = Ok(value: T) | Err(error: Error) {

    predicate IsFailure() {
      Err?
    }

    function PropagateFailure<U>(): Result<U>
      requires Err?
    {
      Err(error)
    }

    function Extract(): T
      requires Ok?
    {
      value
    }
  }
}

/** Failure-carrying values shared by every module of the model. A thrown JavaScript
    `Error` is modelled as `Err(message)`; a resolved promise as `Ok(value)`. */
module Wrappers {

  datatype Option<T> = None | Some(value: T) {
    /** The value, or `default` when absent. */
    function GetOr(default: T): T {
      if Some? then value else default
    }
  }

  datatype Result<T> = Ok(value: T) | Err(error: string) {
    predicate IsFailure() {
      Err?
    }

    function PropagateFailure<U>(): Result<U>
      requires Err?
    {
      Err(error)
    }

    function Extract(): T
      requires Ok?
    {
      value
    }
  }

  /** The result of an operation that returns nothing (`Promise<void>`). */
  datatype Outcome = Pass | Fail(error: string)
}

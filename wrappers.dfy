/** Optional values and the outcome of an operation that may raise. */
module Wrappers {
  datatype Option<T> = None | Some(value: T)

  /** The Python exceptions the viewer's operations can raise. */
  datatype Error = KeyError | ValueError | IndexError | ZeroDivisionError

  datatype Result<T> = Ok(value: T) | Err(error: Error)

  /** How a state-changing call ended: normally, or by raising. */
  datatype Outcome = Success | Failure(error: Error)

  /** The outcome that goes with a computed result. */
  function OutcomeOf<T>(res: Result<T>): (out: Outcome)
    ensures out.Success? <==> res.Ok?
    ensures out.Failure? ==> out.error == res.error
  {
    if res.Ok? then Success else Failure(res.error)
  }
}

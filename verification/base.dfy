/**
 Shared failure-carrying datatypes.

 The exception classes of the application become constructors of one `Error`
 datatype, and every operation that can raise returns a `Result`.
 */
module Base {

  /** Python's `Optional[T]`: either nothing or a value. */
  datatype Option<+T> = None | Some(value: T) {
    function GetOr(default: T): T
    {
      match this
      case Some(v) => v
      case None => default
    }
  }

  /** The exceptions the modelled operations can raise. */
  datatype Error =
    | ModelNotFound(modelName: string)                 // ModelNotFoundError
    | ModelLoadFailed(modelName: string, reason: string) // ModelLoadError
    | InferenceFailed(modelName: string, reason: string) // InferenceError
    | InvalidValue(reason: string)                     // ValueError
    | PromptLeak(reason: string)                       // RuntimeError from the prompt guards
    | BackendFailure(reason: string)                   // any exception from the opaque backend

  datatype Result<+T> = Ok(value: T) | Err(error: Error) {
    predicate IsFailure() { Err? }

    function PropagateFailure<U>(): Result<U>
      requires Err?
    {
      Err(error)
    }

    function Extract(): T
      requires Ok?
    {
      value
    }
  }
}

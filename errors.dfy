/** The error kinds of the note library (emergence_zk/src/error.rs) and the
    failure-compatible wrappers that carry them. */
module Errors {

  /** `ZkError`: the four kinds the library reports, plus `Panic`, which stands
      for the places where the library aborts the thread (an `expect` that
      fails, a string slice out of range). The model returns such an abort as
      a value so that the abort can be stated and, where it cannot happen,
      proved impossible. */
  datatype ZkError =
    | FileError(reason: string)
    | ParseError(reason: string)
    | DbError(reason: string)
    | NotifyError(reason: string)
    | Panic(reason: string)

  /** `ZkResult<T>`. */
  datatype Result<T> = Ok(value: T) | Err(error: ZkError) {
    predicate IsFailure() { Err? }

    function PropagateFailure<U>(): Result<U>
      requires Err?
    {
      Err(error)
    }

    function Extract(): T
      requires Ok?
    {
      value
    }
  }

  datatype Option<T> = None | Some(value: T) {
    predicate IsFailure() { None? }

    function PropagateFailure<U>(): Option<U>
      requires None?
    {
      None
    }

    function Extract(): T
      requires Some?
    {
      value
    }

    /** `Option::ok_or`. */
    function OkOr(e: ZkError): Result<T> {
      match this
      case Some(v) => Ok(v)
      case None => Err(e)
    }
  }
}

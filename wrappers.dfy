/** Optional values and error-or-value results, standing for Go's `(T, error)` pairs. */
module Wrappers {

  datatype Option<+T> = None | Some(value: T)

  /** A Go call that returns either a value or an error (never both). */
  datatype Result<+T> = Ok(value: T) | Err(error: string) {
    predicate IsFailure() { Err? }

    function PropagateFailure<U>(): Result<U>
      requires Err?
    {
      Err(error)
    }

    function Extract(): T
      requires Ok?
    {
      value
    }

    /** `fmt.Errorf(context + ": %w", err)`: the error message gets a prefix. */
    function Wrap(context: string): (r: Result<T>)
      ensures Ok? ==> r == this
      ensures Err? ==> r == Err(context + ": " + error)
    {
      match this
      case Ok(v) => Ok(v)
      case Err(e) => Err(context + ": " + e)
    }
  }
}

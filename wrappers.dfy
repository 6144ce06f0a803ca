/** Shapes shared by every module: a nullable reference, and the outcome of a
    .NET call that either returns a value or throws one of the exceptions the
    modelled code can raise. */
module Wrappers {

  /** A .NET reference that may be null: `None` is null. */
  datatype Option<+T> = None | Some(value: T)

  /** The .NET exceptions the modelled members can throw. */
  datatype Exception =
    | ArgumentNullException(paramName: string)
    | ArgumentException
    | KeyNotFoundException
    | NullReferenceException
    | IndexOutOfRangeException
    | InvalidCastException
    | SerializationException(missingKey: string)
    | TypeInitializationException

  /** The outcome of a member call: it returns `value` or throws `error`. */
  datatype Result<+T> = Ok(value: T) | Throws(error: Exception) {

    predicate IsFailure() {
      Throws?
    }

    function PropagateFailure<U>(): Result<U>
      requires Throws?
    {
      Throws(error)
    }

    function Extract(): T
      requires Ok?
    {
      value
    }
  }
}

/** Failure-compatible wrappers shared by every module of the model. */
module Wrappers {

  /** A value that may be absent: Python's `X | None`. */
  datatype Option<+T> = None | Some(value: T) {
    predicate IsFailure() { None? }

    function PropagateFailure<U>(): Option<U>
      requires None?
    {
      None
    }

    function Extract(): T
      requires Some?
    {
      value
    }

    function GetOr(default: T): T {
      match this
      case Some(v) => v
      case None => default
    }
  }

  /** The outcome of a Python call that returns a value or raises. */
  datatype Result<+T, +E> = Ok(value: T) | Err(error: E) {
    predicate IsFailure() { Err? }

    function PropagateFailure<U>(): Result<U, E>
      requires Err?
    {
      Err(error)
    }

    function Extract(): T
      requires Ok?
    {
      value
    }
  }

  /** The outcome of a Python call that returns nothing or raises. */
  datatype Outcome<+E> = Pass | Fail(error: E) {
    predicate IsFailure() { Fail? }

    function PropagateFailure(): Outcome<E>
      requires Fail?
    {
      this
    }
  }
}

/** The Python exceptions that the modelled code raises or lets escape. */
module Exceptions {
  datatype Exception =
    | ValueError
    | AttributeError       // a method called on None
    | TypeError            // an ordering comparison with None
    | IndexError
    | NotImplementedError
    | OverflowError        // date arithmetic past year 9999
    | HttpError(status: int)
    | RefreshError         // the Google credential was revoked or expired
    | NotFound             // `discord.NotFound`: the message or user does not exist
    | RuntimeError         // a StopIteration escaping a coroutine
    | InteractionResponded // `discord.InteractionResponded`: a second response to one interaction
}

/** Shared vocabulary: an optional value, the application's exception kinds and a
    Result type so that Python's `raise` becomes an explicit error value. */
module Base {

  datatype Option<T> = None | Some(value: T)

  /** The exception classes the core raises: the application's own ones
      (exceptions/main.py), the Python built-ins it lets escape and
      pydantic's `ValidationError`. */
  datatype ErrorKind =
    | InvalidCommandError
    | NotFoundError
    | AlreadyExistsError
    | InvalidDataError
    | EmptyDataError
    | ValueError
    | KeyError
    | TypeError
    | AttributeError
    | NotImplementedError
    | ValidationError

  datatype Error = Error(kind: ErrorKind, msg: string)

  datatype Result<T> = Ok(value: T) | Err(error: Error)
  {
    predicate IsFailure() { Err? }

    function PropagateFailure<U>(): Result<U>
      requires Err?
    {
      Err(error)
    }

    function Extract(): T
      requires Ok?
    {
      value
    }
  }

  function Fail<T>(kind: ErrorKind, msg: string): Result<T>
  {
    Err(Error(kind, msg))
  }

  /** What a loop that has already collected `acc` ends with when the rest
      of its work yields `rest`: the failure of the rest, or `acc` before it. */
  function Prepend<T>(acc: seq<T>, rest: Result<seq<T>>): Result<seq<T>>
  {
    if rest.Ok? then Ok(acc + rest.value) else rest
  }

  /** Nothing collected yet: the loop ends with what the rest yields. */
  lemma PrependEmpty<T>(rest: Result<seq<T>>)
    ensures Prepend([], rest) == rest
  {
    if rest.Ok? {
      assert [] + rest.value == rest.value;
    }
  }

  /** Collecting `x` moves it from the rest's result to the collected part. */
  lemma PrependOne<T>(acc: seq<T>, x: T, rest: Result<seq<T>>)
    ensures Prepend(acc, Prepend([x], rest)) == Prepend(acc + [x], rest)
  {
    if rest.Ok? {
      assert acc + ([x] + rest.value) == (acc + [x]) + rest.value;
    }
  }
}

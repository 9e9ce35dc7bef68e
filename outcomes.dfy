/** Optional values and results shared by every module of the model.

    The Rust code reports failure in two ways: `Option` values that the
    callers unwrap, and panics (`panic!`, `unreachable!`, `todo!`, an index
    out of bounds, an arithmetic overflow in a debug build).  A panic ends
    the program, so the model returns it as the `Panic` alternative of a
    `Result`, carrying the reason, instead of leaving it out. */
module Outcomes {

  datatype Option<+T> = None | Some(value: T)

  datatype Result<+T> = Ok(value: T) | Panic(reason: string)
  {
    predicate IsFailure() { Panic? }

    function PropagateFailure<U>(): Result<U>
      requires Panic?
    {
      Panic(reason)
    }

    function Extract(): T
      requires Ok?
    {
      value
    }
  }

  /** A method's outcome `r` and the state `after` it agree with what
      `spec` says the operation returns and leaves. */
  predicate Agrees<T(==), S(==)>(spec: Result<(T, S)>, r: Result<T>, after: S)
  {
    match spec
    case Panic(m) => r == Panic(m)
    case Ok((v, s)) => r == Ok(v) && after == s
  }

  /** The same for an operation that returns nothing. */
  predicate Updates<S(==)>(spec: Result<S>, r: Result<()>, after: S)
  {
    match spec
    case Panic(m) => r == Panic(m)
    case Ok(s) => r == Ok(()) && after == s
  }
}

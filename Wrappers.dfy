/** Failure-compatible result types used in place of Java's null returns and exceptions. */
module Wrappers {

  /** A Java reference that may be null. */
  datatype Option<+T> = None | Some(value: T)

  /** A value, or the exception that the Java code throws instead of returning it. */
  datatype Result<+T, +E> = Success(value: T) | Failure(error: E) {
    predicate IsFailure() { Failure? }

    function PropagateFailure<U>(): Result<U, E>
      requires Failure?
    {
      Failure(error)
    }

    function Extract(): T
      requires Success?
    {
      value
    }
  }

  /** The result of a void Java method: it returns normally or throws. */
  datatype Outcome<+E> = Pass | Fail(error: E) {
    predicate IsFailure() { Fail? }

    function PropagateFailure<U>(): Result<U, E>
      requires Fail?
    {
      Failure(error)
    }
  }

  /** Forgets the value of a result, keeping only whether (and how) it failed. */
  function ToOutcome<T, E>(r: Result<T, E>): (o: Outcome<E>)
    ensures o.Pass? <==> r.Success?
    ensures r.Failure? ==> o == Fail(r.error)
  {
    match r
    case Success(_) => Pass
    case Failure(e) => Fail(e)
  }
}

/** Java's 32-bit int, for the values the source declares as int. */
module JavaInts {
  newtype int32 = x: int | -0x8000_0000 <= x < 0x8000_0000
}

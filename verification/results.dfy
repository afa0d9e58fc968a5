/** Result / Result<T>: an operation outcome that either succeeded or carries
    an error, plus the Option and Reply wrappers the services use. */
module Results {
  import opened Errors

  datatype Option<T> = None | Some(value: T) {
    function GetOr(default: T): T {
      if Some? then value else default
    }
  }

  /** Result<T>; the non-generic Result is Result<()>. */
  datatype Result<T> = Success(value: T) | Failure(error: Error) {

    predicate IsSuccess() {
      Success?
    }

    /** IsFailure => !IsSuccess */
    predicate IsFailure() {
      !IsSuccess()
    }

    /** The Error property: Error.None on success. */
    function Err(): Error {
      if Success? then NoError else error
    }

    /** The Value property; reading it from a failure throws. */
    function Value(): T
      requires IsSuccess()
    {
      value
    }

    /** The invariant the constructor enforces: success exactly when the
        error is Error.None. */
    predicate Valid() {
      IsSuccess() <==> Err() == NoError
    }
  }

  /** The protected constructor. It throws InvalidOperationException (None
      here) for a success with an error or a failure without one. */
  function Create<T>(isSuccess: bool, error: Error, value: T): (r: Option<Result<T>>)
    ensures r.Some? <==> (isSuccess <==> error == NoError)
    ensures r.Some? ==> r.value.Valid()
    ensures r.Some? ==> r.value.IsSuccess() == isSuccess && r.value.Err() == error
    ensures r.Some? && isSuccess ==> r.value.Value() == value
  {
    if isSuccess && error != NoError then None
    else if !isSuccess && error == NoError then None
    else if isSuccess then Some(Success(value))
    else Some(Failure(error))
  }

  /** Result.Success(value) */
  function SuccessOf<T>(value: T): (r: Result<T>)
    ensures r.Valid() && r.IsSuccess() && r.Value() == value
    ensures Create(true, NoError, value) == Some(r)
  {
    Success(value)
  }

  /** Result.Failure(error); a failure with Error.None would throw. */
  function FailureOf<T>(error: Error): (r: Result<T>)
    requires error != NoError
    ensures r.Valid() && r.IsFailure() && r.Err() == error
  {
    Failure(error)
  }

  /** Result.Failure builds what the constructor builds, whatever default
      value it is handed. */
  lemma FailureOfMatchesConstructor<T>(error: Error, default: T)
    requires error != NoError
    ensures Create(false, error, default) == Some(FailureOf(error))
  {
  }

  /** Every result built from a domain error is a valid failure. */
  lemma DomainFailuresAreValid<T>(e: Error, id: nat, maxDays: int)
    requires e in ForecastErrors(id, maxDays) || e in PositionErrors(id, maxDays)
    ensures var r: Result<T> := Failure(e); r.Valid() && r.IsFailure()
  {
    DomainErrorsAreNotNone(id, maxDays);
  }

  /** What a service call hands back: a result, or an exception that escapes
      it (a failed database statement, which neither the repository, the
      service nor the controller catches). */
  datatype Reply<T> = Returned(result: Result<T>) | Raised
}

/**
 * The Result pattern: handlers report business failures as values instead of
 * exceptions. A result is built only through `Success` or `Failure` (the C#
 * constructor is private).
 */
module Results {
  import opened Wrappers

  /** The error codes a failed result may carry. */
  const NotFound: string := "NOT_FOUND"
  const Conflict: string := "CONFLICT"
  const Validation: string := "VALIDATION"
  const Duplicate: string := "DUPLICATE"
  const Unauthorized: string := "UNAUTHORIZED"

  /**
   * `Result<T>`. `data` is `None` where C# holds `default(T)`: null for the reference
   * types most handlers return, but `false` for the delete handlers' `Result<bool>`.
   * Nothing reads the data of a failure (`ToActionResult` renders only the message and
   * the code), so the two agree wherever the value is observed.
   */
  datatype Result<T> = Result(isSuccess: bool, data: Option<T>, message: string, errorCode: Option<string>)

  /** The shapes the two factories can produce: success carries data and nothing else. */
  predicate WellFormed<T>(r: Result<T>) {
    if r.isSuccess then r.data.Some? && r.message == "" && r.errorCode.None?
    else r.data.None?
  }

  /** `Result<T>.Success(data)` and the static `Result.Success<T>(data)`. */
  function Success<T>(d: T): (r: Result<T>)
    ensures WellFormed(r)
    ensures r.isSuccess && r.data == Some(d)
  {
    Result(true, Some(d), "", None)
  }

  /**
   * `Result<T>.Failure(message, errorCode)` and the static `Result.Failure<T>(...)`; a
   * missing code is `None`. C# stores `default(T)` as the data (`false` for `bool`);
   * the model stores `None`, which no caller of a failure reads.
   */
  function Failure<T>(message: string, errorCode: Option<string>): (r: Result<T>)
    ensures WellFormed(r)
    ensures !r.isSuccess && r.message == message && r.errorCode == errorCode
  {
    Result(false, None, message, errorCode)
  }

  /**
   * The private constructor is reachable only through the factories: every well-formed
   * result is exactly one of them, and each is recovered from its own fields.
   */
  lemma FactoriesCover<T>(r: Result<T>)
    requires WellFormed(r)
    ensures r.isSuccess ==> r == Success(r.data.value)
    ensures !r.isSuccess ==> r == Failure(r.message, r.errorCode)
    ensures r.errorCode.Some? ==> !r.isSuccess
  {
  }

  /** A success and a failure are never equal, whatever their payloads. */
  lemma FactoriesDisjoint<T>(d: T, message: string, errorCode: Option<string>)
    ensures Success(d) != Failure<T>(message, errorCode)
    ensures Success(d).errorCode.None? && Success(d).message == ""
    ensures Failure<T>(message, errorCode).data.None?
  {
  }
}

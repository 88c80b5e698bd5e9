/** The `Result[T]` value/error carrier of result.go: an immutable record whose
    helpers return modified copies. */
module Results {
  import opened Errors

  /** `Err` is the Go error field; None stands for nil. When `Err` is present,
      `Val` is whatever the producer put there (usually the zero value). */
  datatype Result<T> = Result(Val: T, Err: Option<Error>) {

    /** A copy of the receiver with only `Err` replaced. */
    function WithError(err: Option<Error>): (r: Result<T>)
      ensures r.Err == err
      ensures r.Val == Val
    {
      this.(Err := err)
    }

    /** A copy of the receiver with only `Val` replaced. */
    function WithValue(val: T): (r: Result<T>)
      ensures r.Val == val
      ensures r.Err == Err
    {
      this.(Val := val)
    }

    /** The error's message, or the empty string when there is no error. */
    function Error(): (s: string)
      ensures Err.None? ==> s == ""
      ensures Err.Some? ==> s == Err.value.message
    {
      match Err
      case Some(e) => e.message
      case None => ""
    }

    /** `%v` of the error when there is one, `%v` of the value otherwise.
        `show` stands for Go's `%v` rendering of a T; `%v` of an error is its message. */
    function String(show: T -> string): (s: string)
      ensures Err.Some? ==> s == Err.value.message
      ensures Err.None? ==> s == show(Val)
    {
      match Err
      case Some(e) => e.message
      case None => show(Val)
    }
  }

  /** A failed result: `Err` is `err` and `Val` is the zero value of T, which
      the caller supplies as `zero` (Go derives it from the type). */
  function NewErrResult<T>(err: Option<Error>, zero: T): (r: Result<T>)
    ensures r.Err == err && r.Val == zero
  {
    Result(zero, err)
  }

  /** A successful result carrying `val` and no error. */
  function NewResult<T>(val: T): (r: Result<T>)
    ensures r.Val == val && r.Err.None?
  {
    Result(val, None)
  }

  /** Both updates together fix the whole record, in either order. */
  lemma UpdatesCommute<T>(r: Result<T>, v: T, e: Option<Error>)
    ensures r.WithValue(v).WithError(e) == Result(v, e)
    ensures r.WithError(e).WithValue(v) == Result(v, e)
  {
  }

  /** Applying the same update twice is the same as applying it once. */
  lemma UpdatesIdempotent<T>(r: Result<T>, v: T, e: Option<Error>)
    ensures r.WithValue(v).WithValue(v) == r.WithValue(v)
    ensures r.WithError(e).WithError(e) == r.WithError(e)
  {
  }

  /** The two constructors are the zero record updated in one field. */
  lemma ConstructorsAsUpdates<T>(v: T, e: Option<Error>, zero: T)
    ensures NewResult(v) == NewErrResult(None, zero).WithValue(v)
    ensures NewErrResult(e, zero) == NewResult(zero).WithError(e)
  {
  }

  /** `Error()` is empty exactly for the results without an error, provided
      error messages are not empty (Go allows `errors.New("")`). */
  lemma ErrorEmptyIffNoError<T>(r: Result<T>)
    requires r.Err.Some? ==> r.Err.value.message != ""
    ensures r.Error() == "" <==> r.Err.None?
  {
  }

  /** On a failed result, `String()` and `Error()` render the same text. */
  lemma StringOfFailure<T>(r: Result<T>, show: T -> string)
    requires r.Err.Some?
    ensures r.String(show) == r.Error()
  {
  }
}

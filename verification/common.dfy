// Shared vocabulary of the model: optional values, fallible results and the
// reply a handler gives.

module Common {

  /** A value that may be absent; `Option<T>` in the source, SQL NULL in a column. */
  datatype Option<+T> = None | Some(value: T)
  {
    /** `unwrap_or(default)`. */
    function GetOr(default: T): T
    {
      match this
      case Some(v) => v
      case None => default
    }
  }

  /** A fallible computation whose error is a text (`anyhow::Result`, a library error's message). */
  datatype Result<+T> = Success(value: T) | Failure(error: string)

  /** The HTTP statuses the handlers answer with. */
  datatype Status = OK | NotModified | BadRequest | Unauthorized | InternalServerError

  /**
   * What a handler answers.
   *  - `Ok(data)`: the data is wrapped into the success envelope.
   *  - `General(status, message)`: a general envelope (`new_general`) with that status,
   *    an optional message and no data; the failures of the service handlers and the
   *    data-less successes of the router handlers.
   *    An `AppError` raised through `?`, in a router handler or in a service handler
   *    (a page-and-limit refusal, a missing Content-Range, a bcrypt failure), is
   *    answered through `GeneralResponse::new_error`, whose code is "G0004" (bad
   *    request); the model writes it `General(BadRequest, Some(text))`.
   *  - `Crash(reason)`: the handler panics and no reply is produced.
   */
  datatype Outcome<+T> = Ok(data: T) | General(status: Status, message: Option<string>) | Crash(reason: string)

  /** Primary keys are `bigserial`s: natural numbers handed out by a per-table counter. */
  type Id = nat

  /** Timestamps, as an integer count of seconds. */
  type Time = int

  const U64_MAX: int := 0xffff_ffff_ffff_ffff

  /** Rust's `usize` on a 64-bit target. */
  type Usize = n: int | 0 <= n <= U64_MAX

  /** Text of `sqlx::Error::RowNotFound`, the error `fetch_one` raises on an empty result. */
  const ROW_NOT_FOUND: string := "no rows returned by a query that expected to return at least one row"

  /** How `sqlx::Error::Database` displays: this prefix, then the server's message. */
  const DATABASE_ERROR_PREFIX: string := "error returned from database: "

  /**
   * `HeaderValue::to_str`: the text of a header value when every character is
   * visible ASCII or a tab, and an error otherwise.
   */
  function HeaderToStr(v: string): Option<string>
  {
    if forall k :: 0 <= k < |v| ==> v[k] == '\t' || ' ' <= v[k] <= '~' then Some(v) else None
  }

  /** SQL `column = $n` for an id column: NULL equals nothing. */
  predicate IdIs(column: Option<Id>, x: int)
  {
    column.Some? && column.value == x
  }

  /** SQL `a = b` between two nullable columns, read as a WHERE clause reads it (only TRUE keeps a row). */
  predicate SameNonNull<T(==)>(a: Option<T>, b: Option<T>)
  {
    a.Some? && b.Some? && a.value == b.value
  }
}

/** Values shared by the request handlers: optional values, and the outcome
    of a handler that either returns a value or raises. */
module Http {

  /** A value that may be absent (Python's `None`). */
  datatype Option<+T> = None | Some(value: T)

  /** Why a handler did not return normally.
      - `HttpError(status, detail)`: an `HTTPException` with that status code and detail text;
      - `Crash`: any other uncaught exception (a `KeyError`, say), which the web
        framework turns into a bare 500 response. */
  datatype Failure = HttpError(status: int, detail: string) | Crash

  /** The outcome of a call that returns a `T` or raises. */
  datatype Result<+T> = Ok(value: T) | Err(error: Failure)

  /** A character with a code point below 128. */
  predicate IsAscii(c: char)
  {
    (c as int) < 128
  }

  /** Python truthiness of an optional string: present and non-empty. */
  predicate Truthy(s: Option<string>)
  {
    s.Some? && s.value != ""
  }
}

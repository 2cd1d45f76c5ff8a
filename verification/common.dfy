/**
 * Values shared by every layer of the account and session backend: optional
 * values (the source's `null`/`undefined`), the closed set of error kinds the
 * services raise, and a result type that carries either a value or one error.
 */
module Common {

  datatype Option<+T> = None | Some(value: T)

  /** The exception classes the services raise, as a closed enumeration.
      StorageFailure stands for an error thrown by the database driver
      (here: an invalid timestamp handed to a `timestamp` column);
      SigningFailure for the error the token library throws when it cannot
      read a configured lifetime, where no handler converts it. */
  datatype Error = Unauthorized | BadRequest | Conflict | NotFound | StorageFailure | SigningFailure

  datatype Result<+T> = Ok(value: T) | Err(error: Error)

  /** A JavaScript `Date`: milliseconds since the epoch, or `Invalid Date`
      (what `setDate` yields when given `NaN`). */
  datatype Instant = At(ms: int) | InvalidDate

  /** The largest magnitude of a valid ECMAScript time value: 100 000 000 days
      either side of the epoch, in milliseconds. */
  const MaxTimeMs: int := 8_640_000_000_000_000

  /** ECMAScript's `TimeClip`, applied by every `Date` setter: a time value
      outside the valid range becomes `Invalid Date`. */
  function TimeClip(ms: int): (r: Instant)
    ensures r.At? <==> -MaxTimeMs <= ms <= MaxTimeMs
    ensures r.At? ==> r.ms == ms
  {
    if -MaxTimeMs <= ms <= MaxTimeMs then At(ms) else InvalidDate
  }

  /** JavaScript truthiness of an optional string: `null`, `undefined` and `""` are falsy. */
  predicate Truthy(s: Option<string>)
  {
    s.Some? && s.value != ""
  }

  /** The source's `x || null` on an optional string: the empty string becomes `null`. */
  function OrNull(s: Option<string>): (r: Option<string>)
    ensures r.Some? <==> Truthy(s)
    ensures r.Some? ==> r == s
  {
    if s == Some("") then None else s
  }
}

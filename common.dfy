/**
 * Shared vocabulary of the module-access layer: optional values (nullable
 * columns), user identities, timestamps and the expiry test that every
 * "currently active" check applies.
 */
module Common {

  /** A nullable column or a nullable result. */
  datatype Option<+T> = None | Some(value: T)

  /** The primary key of a row of the `users` table (an unsigned big integer). */
  type UserId = nat

  /** A timestamp; the caller supplies the current instant explicitly as `now`. */
  type Time = int

  /**
   * The grouped clause `whereNull(expiry) OR expiry > now()`: a row with no
   * expiry never expires, and one whose expiry equals `now` has expired.
   */
  predicate NotExpired(expiry: Option<Time>, now: Time)
  {
    expiry.None? || expiry.value > now
  }
}

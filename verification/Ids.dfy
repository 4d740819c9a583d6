/** Identifiers and instants, shared by every entity. */
module Ids {

  const MAX_ID_LEN := 128

  /** Instants are nanoseconds since the Unix epoch; the zero `time.Time` is midnight, 1 January of year 1. */
  type Time = int

  const ZERO_TIME: Time := -62135596800 * 1_000_000_000

  predicate IdChar(c: char) {
    || 'a' <= c <= 'z' || 'A' <= c <= 'Z' || '0' <= c <= '9'
    || c == '-' || c == '_' || c == '.'
  }

  predicate ValidId(s: string) {
    1 <= |s| <= MAX_ID_LEN && forall i | 0 <= i < |s| :: IdChar(s[i])
  }
}

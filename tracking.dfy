/**
 * The tracking types a stored chapter number can be recorded under.
 */
module Tracking {
  /** Tracking type of state written before tracking types were recorded. */
  const UnknownType: string := "unknown"
  /** Tracking type of ordinal chapter numbering. */
  const NumberType: string := "number"
}

/** The two enumerations of `NetSparkle.Enums` that the checker uses. */
module Enums {

  /** How strictly the checker insists on a key and a signature. */
  datatype SecurityMode = UseIfPossible | Strict | Unsafe

  /** The outcome of one verification. */
  datatype ValidationResult = Valid | Invalid | Unchecked
}

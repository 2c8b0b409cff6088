/** The C type double, without rounding: a real number, an infinity or not a number. */
module Doubles {
  datatype Double = NaN | Infinite(negative: bool) | Finite(value: real)

  /** latitude_valid of demo/demo_utils.h. */
  predicate LatitudeValid(d: Double) { d.Finite? && -90.0 <= d.value <= 90.0 }

  /** longitude_valid of demo/demo_utils.h. */
  predicate LongitudeValid(d: Double) { d.Finite? && -180.0 <= d.value < 180.0 }
}

/**
 * The value types the view-model works with: a three-axis magnetic field and
 * a timestamped measurement of it. Components are exact reals; the rounding
 * of Swift's `Double` is not modelled.
 */
module Fields {

  /** A field vector in the sensor's own unit (microtesla). */
  datatype Field = Field(x: real, y: real, z: real)

  /** `Field.zero`, the offset used while zeroing is off. */
  const Zero: Field := Field(0.0, 0.0, 0.0)

  /** Component-wise difference, `lhs - rhs`. */
  function Sub(lhs: Field, rhs: Field): Field
  {
    Field(lhs.x - rhs.x, lhs.y - rhs.y, lhs.z - rhs.z)
  }

  /** The per-axis value substituted when the sensor delivers no data. */
  const MissingAxis: real := -999.0

  /** The opaque text of the clock at the moment a sample is recorded. */
  type Timestamp = string

  /** One row of the recorded log. */
  datatype Measurement = Measurement(field: Field, timestamp: Timestamp)
}

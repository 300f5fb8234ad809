/** Three-component vectors standing in for Unity's `Vector3`, with exact
    real coordinates in place of 32-bit floats. Only the operations the
    polyline generator uses are defined: sum, difference, cross product,
    the `up` axis and overwriting the vertical component. */
module Vectors {

  /** A point or direction (x, y, z); y is the vertical axis. */
  datatype Point3 = Point3(x: real, y: real, z: real)

  /** Unity's `Vector3.up`. */
  const Up: Point3 := Point3(0.0, 1.0, 0.0)

  function Add(a: Point3, b: Point3): Point3 {
    Point3(a.x + b.x, a.y + b.y, a.z + b.z)
  }

  function Sub(a: Point3, b: Point3): Point3 {
    Point3(a.x - b.x, a.y - b.y, a.z - b.z)
  }

  /** The cross product, with `Vector3.Cross`'s component formula. */
  function Cross(a: Point3, b: Point3): Point3 {
    Point3(a.y * b.z - a.z * b.y, a.z * b.x - a.x * b.z, a.x * b.y - a.y * b.x)
  }

  /** The vector with its vertical component replaced (`v.y = y`). */
  function WithY(v: Point3, y: real): Point3 {
    Point3(v.x, y, v.z)
  }

  /** Crossing `up` with a vector rotates its horizontal part a quarter
      turn and has no vertical part, so zeroing `y` afterwards changes
      nothing in exact arithmetic. */
  lemma LemmaCrossUpIsHorizontal(v: Point3)
    ensures Cross(Up, v) == Point3(v.z, 0.0, -v.x)
    ensures WithY(Cross(Up, v), 0.0) == Cross(Up, v)
  {
  }
}

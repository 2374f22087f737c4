/** The vector type both OBJ importers build their tables from. */
module Geometry {
  datatype Vec3 = Vec3(x: real, y: real, z: real)

  /** Each component multiplied by `s`. */
  function Scaled(p: Vec3, s: real): Vec3 {
    Vec3(p.x * s, p.y * s, p.z * s)
  }
}

/**
 * The simulation box and point coordinates the kernels receive. The box's
 * floating-point services (minimum-image wrap, distances) are not modelled
 * here; the kernels take them as function parameters.
 */
module Geometry {

  /** A point or displacement. */
  datatype Vec3 = Vec3(x: real, y: real, z: real)

  /** Side lengths, periodicity per axis, and whether the box is two-dimensional. */
  datatype Box = Box(lx: real, ly: real, lz: real,
                     periodicX: bool, periodicY: bool, periodicZ: bool,
                     is2D: bool)

  /** Side lengths are positive; a 2D box's z length is never used. */
  predicate ValidBox(b: Box)
  {
    b.lx > 0.0 && b.ly > 0.0 && (b.is2D || b.lz > 0.0)
  }
}

/**
 * The interface of the `coordinates` module and of the numpy numerics that the
 * chain reconstruction calls. Their floating-point bodies are not part of this
 * model: they are passed in as the fields of a `Numerics` value, so every
 * statement proved below holds whatever these functions compute.
 */
module Geometry {

  /** A point or vector in space; the source's Vec3, used here as a value. */
  datatype Vec3 = Vec3(x: real, y: real, z: real)

  const Origin: Vec3 := Vec3(0.0, 0.0, 0.0)

  /** `u.add(v)` applied to a fresh copy of `u`. */
  function Add(u: Vec3, v: Vec3): (r: Vec3)
    ensures Subtract(r, v) == u
  {
    Vec3(u.x + v.x, u.y + v.y, u.z + v.z)
  }

  /** `u.subtract(v)` applied to a fresh copy of `u`. */
  function Subtract(u: Vec3, v: Vec3): Vec3
  {
    Vec3(u.x - v.x, u.y - v.y, u.z - v.z)
  }

  /**
   * The numerics the source takes from numpy and from `coordinates`:
   *  - dihedral: Output.compute_dihedral on one (sin, cos) pair, in degrees;
   *  - radians, cos, sin: np.radians, np.cos, np.sin;
   *  - norm: np.linalg.norm of a flat vector;
   *  - place: z_matrix_to_cartesian(c_i, c_j, c_k, bond, alpha, theta), the
   *    position it writes into its output argument.
   */
  datatype Numerics = Numerics(
    dihedral: (real, real) -> real,
    radians: real -> real,
    cos: real -> real,
    sin: real -> real,
    norm: seq<real> -> real,
    place: (Vec3, Vec3, Vec3, real, real, real) -> Vec3)
}

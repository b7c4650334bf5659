/** Homogeneous coordinates and 3x3 projective transforms (Eigen's `Vector3f` and `Matrix3f`). */
module Geometry {

  /** A homogeneous point (x, y, w). */
  datatype Vec3 = Vec3(x: real, y: real, w: real)

  /** A 3x3 matrix given by its rows. */
  datatype Mat3 = Mat3(r0: Vec3, r1: Vec3, r2: Vec3)

  /** A point of the image plane. */
  datatype Point2 = Point2(x: real, y: real)

  function Dot(a: Vec3, b: Vec3): real
  {
    a.x * b.x + a.y * b.y + a.w * b.w
  }

  /** The matrix-vector product `m * v`. */
  function Apply(m: Mat3, v: Vec3): Vec3
  {
    Vec3(Dot(m.r0, v), Dot(m.r1, v), Dot(m.r2, v))
  }

  /** The homogeneous point (x, y, 1). */
  function Homogeneous(x: real, y: real): Vec3
  {
    Vec3(x, y, 1.0)
  }

  /** Whether the plane point (x, y) maps under `m` to a finite point. */
  predicate Projectable(m: Mat3, x: real, y: real)
  {
    Apply(m, Homogeneous(x, y)).w != 0.0
  }

  /** The image of (x, y) under `m`, divided through by its w-coordinate. */
  function Project(m: Mat3, x: real, y: real): Point2
    requires Projectable(m, x, y)
  {
    var v := Apply(m, Homogeneous(x, y));
    Point2(v.x / v.w, v.y / v.w)
  }

  const Identity := Mat3(Vec3(1.0, 0.0, 0.0), Vec3(0.0, 1.0, 0.0), Vec3(0.0, 0.0, 1.0))

  /** The homography that shifts every point by (dx, dy). */
  function Translation(dx: real, dy: real): Mat3
  {
    Mat3(Vec3(1.0, 0.0, dx), Vec3(0.0, 1.0, dy), Vec3(0.0, 0.0, 1.0))
  }

  lemma ProjectIdentity(x: real, y: real)
    ensures Projectable(Identity, x, y) && Project(Identity, x, y) == Point2(x, y)
  {
  }

  lemma ProjectTranslation(dx: real, dy: real, x: real, y: real)
    ensures Projectable(Translation(dx, dy), x, y)
    ensures Project(Translation(dx, dy), x, y) == Point2(x + dx, y + dy)
  {
  }
}

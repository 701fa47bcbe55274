/**
 The vector and matrix vocabulary of the ray tracer, over mathematical reals.

 Everything here that glm computes with rational arithmetic alone (sums,
 scalings, dot products, determinants, `reflect`, matrix-vector products) is
 defined exactly. What glm and the C++ runtime compute with square roots,
 powers or general matrix inversion is not modelled: it is bundled in the
 `Library` datatype, whose function-valued fields stand for those routines
 and are supplied by the caller.
 */
module Glm {

  /** The largest finite single-precision float, `std::numeric_limits<float>::max()`. */
  const FloatMax: real := 340282346638528859811704183484516925440.0

  datatype Vec3 = Vec3(x: real, y: real, z: real)

  datatype Vec4 = Vec4(x: real, y: real, z: real, w: real)

  /** A 3x3 matrix stored by columns, as glm stores it. */
  datatype Mat3 = Mat3(c0: Vec3, c1: Vec3, c2: Vec3)

  /** A 4x4 matrix stored by columns: `m[3]` is the fourth column. */
  datatype Mat4 = Mat4(c0: Vec4, c1: Vec4, c2: Vec4, c3: Vec4)

  /** A ray `origin + t * direction`. */
  datatype Ray = Ray(origin: Vec3, direction: Vec3)

  const Zero: Vec3 := Vec3(0.0, 0.0, 0.0)

  function Add(a: Vec3, b: Vec3): Vec3 { Vec3(a.x + b.x, a.y + b.y, a.z + b.z) }

  function Sub(a: Vec3, b: Vec3): Vec3 { Vec3(a.x - b.x, a.y - b.y, a.z - b.z) }

  function Neg(a: Vec3): Vec3 { Vec3(-a.x, -a.y, -a.z) }

  function Scale(s: real, a: Vec3): Vec3 { Vec3(s * a.x, s * a.y, s * a.z) }

  /** Component-wise product, glm's `vec3 * vec3`. */
  function Mul(a: Vec3, b: Vec3): Vec3 { Vec3(a.x * b.x, a.y * b.y, a.z * b.z) }

  function Dot(a: Vec3, b: Vec3): real { a.x * b.x + a.y * b.y + a.z * b.z }

  function Cross(a: Vec3, b: Vec3): Vec3
  {
    Vec3(a.y * b.z - a.z * b.y, a.z * b.x - a.x * b.z, a.x * b.y - a.y * b.x)
  }

  /** The determinant of the matrix whose columns are `a`, `b`, `c`. */
  function Det3(a: Vec3, b: Vec3, c: Vec3): real { Dot(a, Cross(b, c)) }

  /** The point at parameter `t` along a ray. */
  function At(ray: Ray, t: real): Vec3 { Add(ray.origin, Scale(t, ray.direction)) }

  /** glm::reflect: mirror the incident vector `i` about the normal `n`. */
  function Reflect(i: Vec3, n: Vec3): (r: Vec3)
    ensures Dot(r, n) == Dot(i, n) * (1.0 - 2.0 * Dot(n, n))
  {
    Sub(i, Scale(2.0 * Dot(n, i), n))
  }

  /** The mirror keeps every component orthogonal to the normal: only the part along `n` changes. */
  lemma ReflectKeepsTangential(i: Vec3, n: Vec3, u: Vec3)
    requires Dot(u, n) == 0.0
    ensures Dot(Reflect(i, n), u) == Dot(i, u)
  {
  }

  /** glm::clamp(v, 0, 1), component by component. */
  function Clamp01(v: Vec3): (r: Vec3)
    ensures 0.0 <= r.x <= 1.0 && 0.0 <= r.y <= 1.0 && 0.0 <= r.z <= 1.0
    ensures 0.0 <= v.x <= 1.0 ==> r.x == v.x
    ensures 0.0 <= v.y <= 1.0 ==> r.y == v.y
    ensures 0.0 <= v.z <= 1.0 ==> r.z == v.z
  {
    Vec3(ClampUnit(v.x), ClampUnit(v.y), ClampUnit(v.z))
  }

  /** Out-of-range components saturate: below 0 they become 0, above 1 they become 1. */
  lemma Clamp01Saturates(v: Vec3)
    ensures v.x < 0.0 ==> Clamp01(v).x == 0.0
    ensures v.y < 0.0 ==> Clamp01(v).y == 0.0
    ensures v.z < 0.0 ==> Clamp01(v).z == 0.0
    ensures v.x > 1.0 ==> Clamp01(v).x == 1.0
    ensures v.y > 1.0 ==> Clamp01(v).y == 1.0
    ensures v.z > 1.0 ==> Clamp01(v).z == 1.0
  {
  }

  function ClampUnit(s: real): real
  {
    if s < 0.0 then 0.0 else if s > 1.0 then 1.0 else s
  }

  /** std::abs on a real. */
  function Abs(s: real): real { if s < 0.0 then -s else s }

  function Xyz(v: Vec4): Vec3 { Vec3(v.x, v.y, v.z) }

  /** `m * v` for a 4x4 matrix stored by columns. */
  function MulVec4(m: Mat4, v: Vec4): Vec4
  {
    Vec4(m.c0.x * v.x + m.c1.x * v.y + m.c2.x * v.z + m.c3.x * v.w,
         m.c0.y * v.x + m.c1.y * v.y + m.c2.y * v.z + m.c3.y * v.w,
         m.c0.z * v.x + m.c1.z * v.y + m.c2.z * v.z + m.c3.z * v.w,
         m.c0.w * v.x + m.c1.w * v.y + m.c2.w * v.z + m.c3.w * v.w)
  }

  /** `m * v` for a 3x3 matrix stored by columns. */
  function MulVec3(m: Mat3, v: Vec3): Vec3
  {
    Add(Add(Scale(v.x, m.c0), Scale(v.y, m.c1)), Scale(v.z, m.c2))
  }

  function Transpose(m: Mat3): Mat3
  {
    Mat3(Vec3(m.c0.x, m.c1.x, m.c2.x), Vec3(m.c0.y, m.c1.y, m.c2.y), Vec3(m.c0.z, m.c1.z, m.c2.z))
  }

  /** glm's `mat3(m)`: the upper-left 3x3 block of a 4x4 matrix. */
  function Upper3(m: Mat4): Mat3 { Mat3(Xyz(m.c0), Xyz(m.c1), Xyz(m.c2)) }

  /** An affine transform: its last row is (0, 0, 0, 1), so it keeps `w == 1`. */
  predicate Affine(m: Mat4)
  {
    m.c0.w == 0.0 && m.c1.w == 0.0 && m.c2.w == 0.0 && m.c3.w == 1.0
  }

  /**
   The routines the tracer takes from glm, the C++ math library and the
   `Ray` class, which are not modelled: `glm::length`, `glm::normalize`,
   `std::pow`, `glm::inverse` on 4x4 and 3x3 matrices, and
   `Ray::ApplyTransform`.
   */
  datatype Library = Library(
    length: Vec3 -> real,
    normalize: Vec3 -> Vec3,
    pow: (real, real) -> real,
    inverse4: Mat4 -> Mat4,
    inverse3: Mat3 -> Mat3,
    applyTransform: (Ray, Mat4) -> Ray)

  /** The one property of the foreign routines the model relies on: lengths are never negative. */
  ghost predicate LengthNonNegative(lib: Library)
  {
    forall v :: lib.length(v) >= 0.0
  }
}

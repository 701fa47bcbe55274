/**
 A triangle with per-vertex normals, in its own object space, and its ray
 intersection test by barycentric coordinates.
 */
module Triangles {
  import opened Wrappers
  import opened Glm
  import opened HitRecords

  /** Below this magnitude of the system's determinant the ray counts as parallel. */
  const DegenerateEpsilon: real := 0.000001

  /** The unknowns of the ray/triangle system: ray parameter and two barycentrics. */
  datatype Solution = Solution(t: real, beta: real, gamma: real)
  {
    /** The third barycentric coordinate. */
    function Alpha(): real { 1.0 - beta - gamma }

    /** The inside test: `beta >= 0`, `gamma >= 0` and `beta + gamma <= 1`. */
    predicate Inside() { beta >= 0.0 && gamma >= 0.0 && beta + gamma <= 1.0 }
  }

  /**
   Solves `t * a0 + beta * a1 + gamma * a2 == b` by Cramer's rule, or gives
   `None` when the determinant of the columns `a0, a1, a2` is below the
   degeneracy threshold in magnitude. Over the reals this is exactly
   `inverse(A) * b` (see `CramerIsSolution`).
   */
  function Cramer(a0: Vec3, a1: Vec3, a2: Vec3, b: Vec3): (r: Option<Solution>)
    ensures r.None? <==> Abs(Det3(a0, a1, a2)) < DegenerateEpsilon
  {
    var det := Det3(a0, a1, a2);
    if Abs(det) < DegenerateEpsilon then None
    else Some(Solution(Det3(b, a1, a2) / det, Det3(a0, b, a2) / det, Det3(a0, a1, b) / det))
  }

  /** Whenever Cramer's rule gives a solution, it solves the system. */
  lemma CramerIsSolution(a0: Vec3, a1: Vec3, a2: Vec3, b: Vec3)
    requires Cramer(a0, a1, a2, b).Some?
    ensures Combine(Cramer(a0, a1, a2, b).value, a0, a1, a2) == b
  {
    CramerSolves(a0, a1, a2, b, Det3(a0, a1, a2));
  }

  /** `t * a0 + beta * a1 + gamma * a2`. */
  function Combine(s: Solution, a0: Vec3, a1: Vec3, a2: Vec3): Vec3
  {
    Add(Add(Scale(s.t, a0), Scale(s.beta, a1)), Scale(s.gamma, a2))
  }

  /** Cramer's rule solves the system whenever the determinant is not zero. */
  lemma CramerSolves(a0: Vec3, a1: Vec3, a2: Vec3, b: Vec3, det: real)
    requires det == Det3(a0, a1, a2) && det != 0.0
    ensures Combine(Solution(Det3(b, a1, a2) / det, Det3(a0, b, a2) / det, Det3(a0, a1, b) / det), a0, a1, a2) == b
  {
    CramerIdentity(a0, a1, a2, b);
    SolveByRows(a0, a1, a2, b, det, Det3(b, a1, a2), Det3(a0, b, a2), Det3(a0, a1, b));
  }

  /**
   Conversely, the solution is unique: Cramer's rule applied to a
   combination of non-degenerate columns gives back its coefficients.
   */
  lemma CramerIsUnique(s: Solution, a0: Vec3, a1: Vec3, a2: Vec3)
    requires Abs(Det3(a0, a1, a2)) >= DegenerateEpsilon
    ensures Cramer(a0, a1, a2, Combine(s, a0, a1, a2)) == Some(s)
  {
    var det := Det3(a0, a1, a2);
    DetWithFirstReplaced(s, a0, a1, a2);
    DetWithSecondReplaced(s, a0, a1, a2);
    DetWithThirdReplaced(s, a0, a1, a2);
    QuotientOfMultiple(s.t, det);
    QuotientOfMultiple(s.beta, det);
    QuotientOfMultiple(s.gamma, det);
    var b := Combine(s, a0, a1, a2);
    assert Det3(b, a1, a2) / det == s.t;
    assert Det3(a0, b, a2) / det == s.beta;
    assert Det3(a0, a1, b) / det == s.gamma;
  }

  /** The first column replaced by the combination: the determinant scales by `t`. */
  lemma DetWithFirstReplaced(s: Solution, a0: Vec3, a1: Vec3, a2: Vec3)
    ensures Det3(Combine(s, a0, a1, a2), a1, a2) == s.t * Det3(a0, a1, a2)
  {
    DetOfCombination(Combine(s, a0, a1, a2), a0, a1, a2, s.t, s.beta, s.gamma);
  }

  /** The second column replaced by the combination: the determinant scales by `beta`. */
  lemma DetWithSecondReplaced(s: Solution, a0: Vec3, a1: Vec3, a2: Vec3)
    ensures Det3(a0, Combine(s, a0, a1, a2), a2) == s.beta * Det3(a0, a1, a2)
  {
    var b := Combine(s, a0, a1, a2);
    DetCyclic(b, a2, a0);
    DetCyclic(a1, a2, a0);
    DetOfCombination(b, a1, a2, a0, s.beta, s.gamma, s.t);
  }

  /** The third column replaced by the combination: the determinant scales by `gamma`. */
  lemma DetWithThirdReplaced(s: Solution, a0: Vec3, a1: Vec3, a2: Vec3)
    ensures Det3(a0, a1, Combine(s, a0, a1, a2)) == s.gamma * Det3(a0, a1, a2)
  {
    var b := Combine(s, a0, a1, a2);
    DetCyclic(a0, a1, b);
    DetCyclic(a2, a0, a1);
    DetCyclic(a1, a2, a0);
    DetOfCombination(b, a2, a0, a1, s.gamma, s.t, s.beta);
  }

  /** `(x * det) / det == x` for a non-zero `det`. */
  lemma QuotientOfMultiple(x: real, det: real)
    requires det != 0.0
    ensures (x * det) / det == x
  {
  }

  /** The determinant is unchanged by a cyclic shift of its columns. */
  lemma DetCyclic(a: Vec3, b: Vec3, c: Vec3)
    ensures Det3(a, b, c) == Det3(c, a, b)
  {
    Det3Expanded(a, b, c);
    Det3Expanded(c, a, b);
  }

  /**
   Replacing the first column by `x0 * a + x1 * u + x2 * c` scales the
   determinant by `x0`: the other two terms repeat a column.
   */
  lemma DetOfCombination(b: Vec3, a: Vec3, u: Vec3, c: Vec3, x0: real, x1: real, x2: real)
    requires b.x == x0 * a.x + x1 * u.x + x2 * c.x
    requires b.y == x0 * a.y + x1 * u.y + x2 * c.y
    requires b.z == x0 * a.z + x1 * u.z + x2 * c.z
    ensures Det3(b, u, c) == x0 * Det3(a, u, c)
  {
    Det3Expanded(b, u, c);
    Det3Expanded(a, u, c);
    CombinationRows(a.x, a.y, a.z, u.x, u.y, u.z, c.x, c.y, c.z, x0, x1, x2);
  }

  /** The same on coordinates: the cofactors of `u, c` annihilate `u` and `c`. */
  lemma CombinationRows(ax: real, ay: real, az: real, ux: real, uy: real, uz: real,
                        cx: real, cy: real, cz: real, x0: real, x1: real, x2: real)
    ensures (x0 * ax + x1 * ux + x2 * cx) * (uy * cz - uz * cy)
          + (x0 * ay + x1 * uy + x2 * cy) * (uz * cx - ux * cz)
          + (x0 * az + x1 * uz + x2 * cz) * (ux * cy - uy * cx)
         == x0 * (ax * (uy * cz - uz * cy) + ay * (uz * cx - ux * cz) + az * (ux * cy - uy * cx))
  {
  }

  /** From `d0 * a0 + d1 * a1 + d2 * a2 == det * b`, the quotients by `det` solve the system. */
  lemma SolveByRows(a0: Vec3, a1: Vec3, a2: Vec3, b: Vec3, det: real, d0: real, d1: real, d2: real)
    requires det != 0.0
    requires d0 * a0.x + d1 * a1.x + d2 * a2.x == det * b.x
    requires d0 * a0.y + d1 * a1.y + d2 * a2.y == det * b.y
    requires d0 * a0.z + d1 * a1.z + d2 * a2.z == det * b.z
    ensures Combine(Solution(d0 / det, d1 / det, d2 / det), a0, a1, a2) == b
  {
    DivideRow(d0, d1, d2, det, a0.x, a1.x, a2.x, b.x);
    DivideRow(d0, d1, d2, det, a0.y, a1.y, a2.y, b.y);
    DivideRow(d0, d1, d2, det, a0.z, a1.z, a2.z, b.z);
    CombineRows(Solution(d0 / det, d1 / det, d2 / det), a0, a1, a2, b);
  }

  /** The combination equals `b` when it does row by row. */
  lemma CombineRows(s: Solution, a0: Vec3, a1: Vec3, a2: Vec3, b: Vec3)
    requires s.t * a0.x + s.beta * a1.x + s.gamma * a2.x == b.x
    requires s.t * a0.y + s.beta * a1.y + s.gamma * a2.y == b.y
    requires s.t * a0.z + s.beta * a1.z + s.gamma * a2.z == b.z
    ensures Combine(s, a0, a1, a2) == b
  {
  }

  /** Dividing one row of the expanded identity by the determinant. */
  lemma DivideRow(d0: real, d1: real, d2: real, det: real, u0: real, u1: real, u2: real, p: real)
    requires det != 0.0 && d0 * u0 + d1 * u1 + d2 * u2 == det * p
    ensures (d0 / det) * u0 + (d1 / det) * u1 + (d2 / det) * u2 == p
  {
    var q0, q1, q2 := d0 / det, d1 / det, d2 / det;
    assert d0 == q0 * det && d1 == q1 * det && d2 == q2 * det;
    assert det * (q0 * u0 + q1 * u1 + q2 * u2) == det * p;
  }

  /** Expanding the determinants, row by row: `d0 * a0 + d1 * a1 + d2 * a2 == det * b`. */
  lemma CramerIdentity(a0: Vec3, a1: Vec3, a2: Vec3, b: Vec3)
    ensures Det3(b, a1, a2) * a0.x + Det3(a0, b, a2) * a1.x + Det3(a0, a1, b) * a2.x == Det3(a0, a1, a2) * b.x
    ensures Det3(b, a1, a2) * a0.y + Det3(a0, b, a2) * a1.y + Det3(a0, a1, b) * a2.y == Det3(a0, a1, a2) * b.y
    ensures Det3(b, a1, a2) * a0.z + Det3(a0, b, a2) * a1.z + Det3(a0, a1, b) * a2.z == Det3(a0, a1, a2) * b.z
  {
    var det, d0, d1, d2 := Det3(a0, a1, a2), Det3(b, a1, a2), Det3(a0, b, a2), Det3(a0, a1, b);
    Det3Expanded(a0, a1, a2);
    Det3Expanded(b, a1, a2);
    Det3Expanded(a0, b, a2);
    Det3Expanded(a0, a1, b);
    CramerRows(a0.x, a0.y, a0.z, a1.x, a1.y, a1.z, a2.x, a2.y, a2.z, b.x, b.y, b.z, det, d0, d1, d2);
  }

  /** The determinant written out in coordinates. */
  lemma Det3Expanded(a: Vec3, b: Vec3, c: Vec3)
    ensures Det3(a, b, c) == a.x * (b.y * c.z - b.z * c.y) + a.y * (b.z * c.x - b.x * c.z) + a.z * (b.x * c.y - b.y * c.x)
  {
  }

  /** The same identity on coordinates, one row at a time. */
  lemma CramerRows(ax: real, ay: real, az: real, ux: real, uy: real, uz: real,
                   cx: real, cy: real, cz: real, px: real, py: real, pz: real,
                   det: real, d0: real, d1: real, d2: real)
    requires det == ax * (uy * cz - uz * cy) + ay * (uz * cx - ux * cz) + az * (ux * cy - uy * cx)
    requires d0 == px * (uy * cz - uz * cy) + py * (uz * cx - ux * cz) + pz * (ux * cy - uy * cx)
    requires d1 == ax * (py * cz - pz * cy) + ay * (pz * cx - px * cz) + az * (px * cy - py * cx)
    requires d2 == ax * (uy * pz - uz * py) + ay * (uz * px - ux * pz) + az * (ux * py - uy * px)
    ensures d0 * ax + d1 * ux + d2 * cx == det * px
    ensures d0 * ay + d1 * uy + d2 * cy == det * py
    ensures d0 * az + d1 * uz + d2 * cz == det * pz
  {
  }

  class Triangle {
    const positions: seq<Vec3>
    const normals: seq<Vec3>

    /** Stores the three positions and then the three normals, in argument order. */
    constructor (p0: Vec3, p1: Vec3, p2: Vec3, n0: Vec3, n1: Vec3, n2: Vec3)
      ensures positions == [p0, p1, p2] && normals == [n0, n1, n2]
      ensures Valid()
    {
      var ps: seq<Vec3> := [];
      ps := ps + [p0];
      ps := ps + [p1];
      ps := ps + [p2];
      var ns: seq<Vec3> := [];
      ns := ns + [n0];
      ns := ns + [n1];
      ns := ns + [n2];
      positions := ps;
      normals := ns;
    }

    /** Copies the given vectors; nothing checks that they hold three entries. */
    constructor FromVectors(positions: seq<Vec3>, normals: seq<Vec3>)
      ensures this.positions == positions && this.normals == normals
    {
      this.positions := positions;
      this.normals := normals;
    }

    /** The intersection test reads entries 0, 1 and 2 of both vectors. */
    predicate Valid() { |positions| >= 3 && |normals| >= 3 }

    /** The system `[-D | e1 | e2] * (t, beta, gamma) == origin - v0` for a ray. */
    function Solve(ray: Ray): Option<Solution>
      requires Valid()
    {
      var v0 := positions[0];
      Cramer(Neg(ray.direction), Sub(positions[1], v0), Sub(positions[2], v0), Sub(ray.origin, v0))
    }

    /** `alpha * n0 + beta * n1 + gamma * n2`, before normalization. */
    function InterpolatedNormal(s: Solution): Vec3
      requires Valid()
    {
      Add(Add(Scale(s.Alpha(), normals[0]), Scale(s.beta, normals[1])), Scale(s.gamma, normals[2]))
    }

    /**
     The hit `Intersect` writes into a record whose current time is `time`,
     or `None` when it leaves the record alone.
     */
    function Intersection(lib: Library, ray: Ray, tMin: real, time: real): Option<Hit>
      requires Valid()
    {
      match Solve(ray)
      case None => None
      case Some(s) =>
        if s.beta < 0.0 || s.gamma < 0.0 || s.beta + s.gamma > 1.0 then None
        else if s.t < tMin || s.t >= time then None
        else Some(Hit(s.t, lib.normalize(InterpolatedNormal(s))))
    }

    /**
     Tests the ray against the triangle and, on a closer valid hit inside it,
     overwrites the record's time and normal; otherwise the record is untouched.
     */
    method Intersect(lib: Library, ray: Ray, tMin: real, record: HitRecord) returns (hit: bool)
      requires Valid()
      modifies record
      ensures hit == Intersection(lib, ray, tMin, old(record.time)).Some?
      ensures hit ==> Intersection(lib, ray, tMin, old(record.time)) == Some(Hit(record.time, record.normal))
      ensures !hit ==> record.time == old(record.time) && record.normal == old(record.normal)
    {
      var v0, v1, v2 := positions[0], positions[1], positions[2];
      var e1 := Sub(v1, v0);
      var e2 := Sub(v2, v0);
      var a0 := Neg(ray.direction);
      var b := Sub(ray.origin, v0);
      var det := Det3(a0, e1, e2);
      if Abs(det) < DegenerateEpsilon {
        return false;
      }
      var t := Det3(b, e1, e2) / det;
      var beta := Det3(a0, b, e2) / det;
      var gamma := Det3(a0, e1, b) / det;
      var alpha := 1.0 - beta - gamma;
      if beta < 0.0 || gamma < 0.0 || beta + gamma > 1.0 {
        return false;
      }
      if t < tMin || t >= record.time {
        return false;
      }
      var interpolated := Add(Add(Scale(alpha, normals[0]), Scale(beta, normals[1])), Scale(gamma, normals[2]));
      record.time := t;
      record.normal := lib.normalize(interpolated);
      return true;
    }
  }

  /** A ray (nearly) parallel to the triangle's plane never hits it. */
  lemma DegenerateSystemMisses(tri: Triangle, lib: Library, ray: Ray, tMin: real, time: real)
    requires tri.Valid()
    requires Abs(Det3(Neg(ray.direction), Sub(tri.positions[1], tri.positions[0]), Sub(tri.positions[2], tri.positions[0]))) < DegenerateEpsilon
    ensures tri.Intersection(lib, ray, tMin, time) == None
  {
  }

  /** A solution outside the triangle is rejected, whatever the record holds. */
  lemma OutsideMisses(tri: Triangle, lib: Library, ray: Ray, tMin: real, time: real)
    requires tri.Valid()
    requires tri.Solve(ray).Some?
    requires var s := tri.Solve(ray).value; s.beta < 0.0 || s.gamma < 0.0 || s.beta + s.gamma > 1.0
    ensures tri.Intersection(lib, ray, tMin, time) == None
  {
  }

  /**
   An accepted hit comes from a solution of the ray/triangle system: its
   point `origin + t * D` equals `v0 + beta * e1 + gamma * e2`, its
   barycentrics are non-negative and sum to one, `t` lies in the window
   `[tMin, time)`, and the normal is the normalized interpolation.
   */
  lemma {:induction false} AcceptedHitSolvesSystem(tri: Triangle, lib: Library, ray: Ray, tMin: real, time: real)
    requires tri.Valid()
    requires tri.Intersection(lib, ray, tMin, time).Some?
    ensures tri.Solve(ray).Some?
    ensures var s, h := tri.Solve(ray).value, tri.Intersection(lib, ray, tMin, time).value;
      var v0 := tri.positions[0];
      && At(ray, s.t) == Add(Add(v0, Scale(s.beta, Sub(tri.positions[1], v0))), Scale(s.gamma, Sub(tri.positions[2], v0)))
      && s.Alpha() >= 0.0 && s.beta >= 0.0 && s.gamma >= 0.0
      && s.Alpha() + s.beta + s.gamma == 1.0
      && tMin <= s.t < time && h.time == s.t
      && h.normal == lib.normalize(tri.InterpolatedNormal(s))
  {
    var s := tri.Solve(ray).value;
    var v0 := tri.positions[0];
    var e1, e2 := Sub(tri.positions[1], v0), Sub(tri.positions[2], v0);
    CramerIsSolution(Neg(ray.direction), e1, e2, Sub(ray.origin, v0));
    SystemToPoint(s, ray.origin, ray.direction, v0, e1, e2);
  }

  /** The solved system, rearranged: `origin + t * D == v0 + beta * e1 + gamma * e2`. */
  lemma SystemToPoint(s: Solution, origin: Vec3, direction: Vec3, v0: Vec3, e1: Vec3, e2: Vec3)
    requires Combine(s, Neg(direction), e1, e2) == Sub(origin, v0)
    ensures Add(origin, Scale(s.t, direction)) == Add(Add(v0, Scale(s.beta, e1)), Scale(s.gamma, e2))
  {
  }

  /** The ray/triangle system, from the point equation `origin + t * D == v0 + beta * e1 + gamma * e2`. */
  lemma PointToSystem(s: Solution, origin: Vec3, direction: Vec3, v0: Vec3, e1: Vec3, e2: Vec3)
    requires Add(origin, Scale(s.t, direction)) == Add(Add(v0, Scale(s.beta, e1)), Scale(s.gamma, e2))
    ensures Combine(s, Neg(direction), e1, e2) == Sub(origin, v0)
  {
    var p, q := Add(origin, Scale(s.t, direction)), Add(Add(v0, Scale(s.beta, e1)), Scale(s.gamma, e2));
    assert p.x == q.x && p.y == q.y && p.z == q.z;
  }

  /**
   The geometric converse of `AcceptedHitSolvesSystem`: when the system is
   not degenerate and the ray's point at `s.t` is the point of the triangle
   with barycentrics `s.beta`, `s.gamma` (inside it), with `s.t` in the
   window, the test accepts the hit at `s.t` with the interpolated normal.
   */
  lemma {:induction false} PointInTriangleInWindowIsHit(tri: Triangle, lib: Library, ray: Ray, tMin: real, time: real, s: Solution)
    requires tri.Valid()
    requires Abs(Det3(Neg(ray.direction), Sub(tri.positions[1], tri.positions[0]), Sub(tri.positions[2], tri.positions[0]))) >= DegenerateEpsilon
    requires var v0 := tri.positions[0];
      At(ray, s.t) == Add(Add(v0, Scale(s.beta, Sub(tri.positions[1], v0))), Scale(s.gamma, Sub(tri.positions[2], v0)))
    requires s.Inside() && tMin <= s.t < time
    ensures tri.Intersection(lib, ray, tMin, time) == Some(Hit(s.t, lib.normalize(tri.InterpolatedNormal(s))))
  {
    var v0 := tri.positions[0];
    var e1, e2 := Sub(tri.positions[1], v0), Sub(tri.positions[2], v0);
    PointToSystem(s, ray.origin, ray.direction, v0, e1, e2);
    CramerIsUnique(s, Neg(ray.direction), e1, e2);
    assert tri.Solve(ray) == Some(s);
    InsideInWindowIsHit(tri, lib, ray, tMin, time);
  }

  /**
   A solution inside the triangle whose `t` lies in the window is accepted:
   the inside and window tests are the only ones after the solve.
   */
  lemma InsideInWindowIsHit(tri: Triangle, lib: Library, ray: Ray, tMin: real, time: real)
    requires tri.Valid()
    requires tri.Solve(ray).Some? && tri.Solve(ray).value.Inside()
    requires tMin <= tri.Solve(ray).value.t < time
    ensures tri.Intersection(lib, ray, tMin, time) == Some(Hit(tri.Solve(ray).value.t, lib.normalize(tri.InterpolatedNormal(tri.Solve(ray).value))))
  {
  }
}

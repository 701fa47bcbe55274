/**
 An infinite plane `{x | Dot(x, normal) == d}` in its own object space, and
 its ray intersection test.
 */
module Planes {
  import opened Wrappers
  import opened Glm
  import opened HitRecords

  /** Below this magnitude of `Dot(direction, normal)` a ray counts as parallel. */
  const ParallelEpsilon: real := 0.000001

  class Plane {
    const normal: Vec3
    const d: real

    /** Stores the normalized normal and the offset. */
    constructor (lib: Library, normal: Vec3, d: real)
      ensures this.normal == lib.normalize(normal) && this.d == d
    {
      this.normal := lib.normalize(normal);
      this.d := d;
    }

    /**
     The hit `Intersect` writes into a record whose current time is `time`,
     or `None` when it leaves the record alone.
     */
    function Intersection(ray: Ray, tMin: real, time: real): Option<Hit>
    {
      var denom := Dot(ray.direction, normal);
      if Abs(denom) < ParallelEpsilon then None
      else
        var t := (d - Dot(ray.origin, normal)) / denom;
        if t < tMin || t >= time then None
        else Some(Hit(t, normal))
    }

    /**
     Tests the ray against the plane and, on a closer valid hit, overwrites
     the record's time and normal; otherwise the record is untouched.
     */
    method Intersect(ray: Ray, tMin: real, record: HitRecord) returns (hit: bool)
      modifies record
      ensures hit == Intersection(ray, tMin, old(record.time)).Some?
      ensures hit ==> Intersection(ray, tMin, old(record.time)) == Some(Hit(record.time, record.normal))
      ensures !hit ==> record.time == old(record.time) && record.normal == old(record.normal)
    {
      var denom := Dot(ray.direction, normal);
      if Abs(denom) < ParallelEpsilon {
        return false;
      }
      var t := (d - Dot(ray.origin, normal)) / denom;
      if t < tMin || t >= record.time {
        return false;
      }
      record.time := t;
      record.normal := normal;
      return true;
    }
  }

  /** A ray (nearly) parallel to the plane never hits it, whatever the record holds. */
  lemma ParallelRayMisses(p: Plane, ray: Ray, tMin: real, time: real)
    requires Abs(Dot(ray.direction, p.normal)) < ParallelEpsilon
    ensures p.Intersection(ray, tMin, time) == None
  {
  }

  /**
   An accepted hit lies in the window `[tMin, time)`, so it strictly tightens
   the record, reports the stored normal as it is (no flip toward the ray),
   and its point lies on the plane.
   */
  lemma {:induction false} HitIsOnPlaneInWindow(p: Plane, ray: Ray, tMin: real, time: real)
    requires p.Intersection(ray, tMin, time).Some?
    ensures var h := p.Intersection(ray, tMin, time).value;
      tMin <= h.time < time && h.normal == p.normal && Dot(At(ray, h.time), p.normal) == p.d
  {
    var denom := Dot(ray.direction, p.normal);
    var t := (p.d - Dot(ray.origin, p.normal)) / denom;
    DotAlongRay(ray, t, p.normal);
    assert t * denom == p.d - Dot(ray.origin, p.normal);
  }

  /**
   Conversely, a non-parallel ray whose point at `s` lies on the plane, with
   `s` inside the window, is hit exactly at `s`: the test misses nothing.
   */
  lemma {:induction false} OnPlaneInWindowIsHit(p: Plane, ray: Ray, tMin: real, time: real, s: real)
    requires Abs(Dot(ray.direction, p.normal)) >= ParallelEpsilon
    requires Dot(At(ray, s), p.normal) == p.d
    requires tMin <= s < time
    ensures p.Intersection(ray, tMin, time) == Some(Hit(s, p.normal))
  {
    var denom := Dot(ray.direction, p.normal);
    DotAlongRay(ray, s, p.normal);
    assert s * denom == p.d - Dot(ray.origin, p.normal);
    assert (p.d - Dot(ray.origin, p.normal)) / denom == s;
  }

  /** The dot product with a fixed vector is affine along a ray. */
  lemma DotAlongRay(ray: Ray, t: real, n: Vec3)
    ensures Dot(At(ray, t), n) == Dot(ray.origin, n) + t * Dot(ray.direction, n)
  {
  }

  /**
   The plane with normal (0, 1, 0) through the origin, and a ray from
   (0, 5, 0) straight down: the hit is at t = 5 with normal (0, 1, 0).
   */
  lemma DownwardRayHitsGround(p: Plane, ray: Ray, time: real)
    requires p.normal == Vec3(0.0, 1.0, 0.0) && p.d == 0.0
    requires ray == Ray(Vec3(0.0, 5.0, 0.0), Vec3(0.0, -1.0, 0.0))
    requires time > 5.0
    ensures p.Intersection(ray, 0.0, time) == Some(Hit(5.0, Vec3(0.0, 1.0, 0.0)))
  {
    var denom, offset := Dot(ray.direction, p.normal), Dot(ray.origin, p.normal);
    assert denom == -1.0;
    assert offset == 5.0;
    assert (p.d - offset) / denom == 5.0;
  }
}

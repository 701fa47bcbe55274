/**
 What the tracer sees of a scene: renderable components (a primitive, its
 node's local-to-world matrix and the node's optional material), the lights,
 and the render settings; plus the closest-hit search over the components.
 */
module Scenes {
  import opened Wrappers
  import opened Glm
  import opened HitRecords
  import opened Planes
  import opened Triangles
  import opened Illuminator

  /** The Phong material of a node. */
  datatype Material = Material(ambient: Vec3, diffuse: Vec3, specular: Vec3, shininess: real)

  /** The closed family of primitives, each intersected in its own object space. */
  datatype Shape = PlaneShape(plane: Plane) | TriangleShape(triangle: Triangle)
  {
    predicate Valid() { TriangleShape? ==> triangle.Valid() }

    /** The hit the primitive's own test would write into a record whose time is `time`. */
    function Intersection(lib: Library, ray: Ray, tMin: real, time: real): Option<Hit>
      requires Valid()
    {
      match this
      case PlaneShape(p) => p.Intersection(ray, tMin, time)
      case TriangleShape(t) => t.Intersection(lib, ray, tMin, time)
    }

    /** The virtual `Intersect` call, dispatched to the primitive. */
    method Intersect(lib: Library, ray: Ray, tMin: real, record: HitRecord) returns (hit: bool)
      requires Valid()
      modifies record
      ensures hit == Intersection(lib, ray, tMin, old(record.time)).Some?
      ensures hit ==> Intersection(lib, ray, tMin, old(record.time)) == Some(Hit(record.time, record.normal))
      ensures !hit ==> record.time == old(record.time) && record.normal == old(record.normal)
    {
      match this
      case PlaneShape(p) =>
        hit := p.Intersect(ray, tMin, record);
      case TriangleShape(t) =>
        hit := t.Intersect(lib, ray, tMin, record);
    }
  }

  /** A renderable node: its primitive, its local-to-world matrix and its material, if any. */
  datatype Component = Component(shape: Shape, localToWorld: Mat4, material: Option<Material>)
  {
    predicate Valid() { shape.Valid() && Affine(localToWorld) }
  }

  /**
   Everything one trace reads: the foreign routines, the flattened
   components and lights, the camera's `tMin`, the shadow switch, the
   background colour and the optional cube map (a texel per direction).
   */
  datatype World = World(
    lib: Library,
    components: seq<Component>,
    lights: seq<LightComponent>,
    tMin: real,
    shadowsEnabled: bool,
    background: Vec3,
    cubeMap: Option<Vec3 -> Vec3>)
  {
    predicate Valid() { forall i :: 0 <= i < |components| ==> components[i].Valid() }
  }

  /** One component's hit, in world space: distance from the ray's origin, object-space normal, point. */
  datatype Candidate = Candidate(dist: real, objectNormal: Vec3, point: Vec3)

  /** The running winner of the closest-hit search: which component, and its hit. */
  datatype Best = Best(index: nat, hit: Candidate)

  /** The colour of a ray that hits nothing: the cube map's texel if there is a map, else the background. */
  function Background(w: World, direction: Vec3): (r: Vec3)
    ensures w.cubeMap.Some? ==> r == w.cubeMap.value(direction)
    ensures w.cubeMap.None? ==> r == w.background
  {
    match w.cubeMap
    case Some(texel) => texel(direction)
    case None => w.background
  }

  /**
   An object-space point taken to world space: multiply by the matrix with
   `w = 1` and divide by the resulting `w`. For an affine matrix the divide
   is by one, so the point is the linear part applied plus the translation.
   */
  function ToWorld(m: Mat4, p: Vec3): (r: Vec3)
    requires Affine(m)
    ensures r == Add(MulVec3(Upper3(m), p), Xyz(m.c3))
  {
    var h := MulVec4(m, Vec4(p.x, p.y, p.z, 1.0));
    assert h.w == 1.0;
    Vec3(h.x / h.w, h.y / h.w, h.z / h.w)
  }

  /**
   One component's part of a closest-hit search: the ray taken to object
   space by the inverse of the node's matrix, intersected with a fresh
   record, and the hit point brought back to world space and measured from
   the world ray's origin.
   */
  function Probe(w: World, c: Component, ray: Ray): Option<Candidate>
    requires c.Valid()
  {
    var objectRay := w.lib.applyTransform(ray, w.lib.inverse4(c.localToWorld));
    match c.shape.Intersection(w.lib, objectRay, w.tMin, FloatMax)
    case None => None
    case Some(h) =>
      var point := ToWorld(c.localToWorld, At(objectRay, h.time));
      Some(Candidate(w.lib.length(Sub(point, ray.origin)), h.normal, point))
  }

  /** The probes of the first `n` components, in component order. */
  function Probes(w: World, ray: Ray, n: nat): (r: seq<Option<Candidate>>)
    requires w.Valid() && n <= |w.components|
    ensures |r| == n
  {
    if n == 0 then [] else Probes(w, ray, n - 1) + [Probe(w, w.components[n - 1], ray)]
  }

  /** Entry `j` of the probes is component `j`'s probe, however many components follow it. */
  lemma {:induction false} ProbeAt(w: World, ray: Ray, n: nat, j: nat)
    requires w.Valid() && j < n <= |w.components|
    ensures Probes(w, ray, n)[j] == Probe(w, w.components[j], ray)
  {
    if j < n - 1 {
      ProbeAt(w, ray, n - 1, j);
    }
  }

  /**
   The closest-hit fold over a run of probes, in order: a hit replaces the
   running winner only when its distance is strictly below the winner's
   (below `FloatMax` while there is none).
   */
  function Nearest(hits: seq<Option<Candidate>>): (r: Option<Best>)
    ensures r.Some? ==> r.value.index < |hits| && hits[r.value.index] == Some(r.value.hit)
  {
    if hits == [] then None
    else
      var previous := Nearest(hits[..|hits| - 1]);
      match hits[|hits| - 1]
      case None => previous
      case Some(c) => if c.dist < Bound(previous) then Some(Best(|hits| - 1, c)) else previous
  }

  /** The distance a candidate must beat: the winner's, or `FloatMax` before any hit. */
  function Bound(b: Option<Best>): real
  {
    match b
    case None => FloatMax
    case Some(best) => best.hit.dist
  }

  /** The closest-hit search over the first `n` components. */
  function Closest(w: World, ray: Ray, n: nat): (r: Option<Best>)
    requires w.Valid() && n <= |w.components|
    ensures r.Some? ==> r.value.index < n && Probe(w, w.components[r.value.index], ray) == Some(r.value.hit)
  {
    var r := Nearest(Probes(w, ray, n));
    if r.Some? then ProbeAt(w, ray, n, r.value.index); r else r
  }

  /** One step of the search: component `n`'s probe against the winner among the first `n`. */
  lemma ClosestStep(w: World, ray: Ray, n: nat)
    requires w.Valid() && n < |w.components|
    ensures Closest(w, ray, n + 1) ==
      match Probe(w, w.components[n], ray)
      case None => Closest(w, ray, n)
      case Some(c) => if c.dist < Bound(Closest(w, ray, n)) then Some(Best(n, c)) else Closest(w, ray, n)
  {
    assert Probes(w, ray, n + 1)[..n] == Probes(w, ray, n);
  }

  /**
   The fold finds the FIRST closest hit: the winner's distance is below
   `FloatMax`, strictly below every earlier hit's and at most every later
   one's; and with no winner, no hit is below `FloatMax`.
   */
  lemma {:induction false} NearestIsFirstMinimum(hits: seq<Option<Candidate>>)
    ensures Nearest(hits).None? ==>
      forall j :: 0 <= j < |hits| ==> hits[j].None? || hits[j].value.dist >= FloatMax
    ensures Nearest(hits).Some? ==>
      var b := Nearest(hits).value;
      && b.hit.dist < FloatMax
      && (forall j :: 0 <= j < b.index ==> hits[j].None? || hits[j].value.dist > b.hit.dist)
      && (forall j :: b.index < j < |hits| ==> hits[j].None? || hits[j].value.dist >= b.hit.dist)
  {
    if hits != [] {
      var prefix := hits[..|hits| - 1];
      NearestIsFirstMinimum(prefix);
      assert forall j :: 0 <= j < |prefix| ==> prefix[j] == hits[j];
    }
  }

  /**
   The search finds the FIRST closest component: the winner's distance is
   below `FloatMax`, strictly below every earlier component's and at most
   every later one's; and with no winner, no component hits below `FloatMax`.
   */
  lemma ClosestIsFirstMinimum(w: World, ray: Ray, n: nat)
    requires w.Valid() && n <= |w.components|
    ensures Closest(w, ray, n).None? ==>
      forall j :: 0 <= j < n ==> Probe(w, w.components[j], ray).None? || Probe(w, w.components[j], ray).value.dist >= FloatMax
    ensures Closest(w, ray, n).Some? ==>
      var b := Closest(w, ray, n).value;
      && b.index < n
      && Probe(w, w.components[b.index], ray) == Some(b.hit)
      && b.hit.dist < FloatMax
      && (forall j :: 0 <= j < b.index ==> Probe(w, w.components[j], ray).None? || Probe(w, w.components[j], ray).value.dist > b.hit.dist)
      && (forall j :: b.index < j < n ==> Probe(w, w.components[j], ray).None? || Probe(w, w.components[j], ray).value.dist >= b.hit.dist)
  {
    NearestIsFirstMinimum(Probes(w, ray, n));
    forall j | 0 <= j < n {
      ProbeAt(w, ray, n, j);
    }
  }

  /**
   Whatever the order of the components, the winning distance is the least
   distance below `FloatMax` among the components that hit: any component
   that reports a closer hit than `FloatMax` bounds it from above.
   */
  lemma {:induction false} ClosestDistanceIsMinimum(w: World, ray: Ray, j: nat)
    requires w.Valid() && j < |w.components|
    requires Probe(w, w.components[j], ray).Some? && Probe(w, w.components[j], ray).value.dist < FloatMax
    ensures Closest(w, ray, |w.components|).Some?
    ensures Closest(w, ray, |w.components|).value.hit.dist <= Probe(w, w.components[j], ray).value.dist
  {
    ClosestIsFirstMinimum(w, ray, |w.components|);
  }

  /** The object-space normal taken to world space by the inverse transpose of the matrix's linear part. */
  function WorldNormal(lib: Library, m: Mat4, n: Vec3): Vec3
  {
    lib.normalize(MulVec3(Transpose(lib.inverse3(Upper3(m))), n))
  }
}

/**
 The colour a ray brings back: the closest hit's local shading plus, while
 bounces remain and the material is reflective enough, the specular-weighted
 colour of the mirrored ray; and the pixel-to-device mapping of the driver.
 */
module Tracing {
  import opened Wrappers
  import opened Glm
  import opened Illuminator
  import opened Scenes
  import opened Shading

  /** Above this mean specular reflectance a hit spawns a reflection ray. */
  const ReflectivityThreshold: real := 0.01

  /** The diagnostic colour of a hit on a node without a material. */
  const Magenta: Vec3 := Vec3(1.0, 0.0, 1.0)

  /** The mean of the specular colour's three channels. */
  function Reflectivity(m: Material): real
  {
    (m.specular.x + m.specular.y + m.specular.z) / 3.0
  }

  /** What the closest-hit search found: nothing, a node without material, or a shadeable hit. */
  datatype Outcome =
    | Miss
    | Unlit(dist: real, normal: Vec3)
    | Lit(dist: real, normal: Vec3, point: Vec3, material: Material)

  /** The closest hit of a ray, with its world normal and its node's material. */
  function Classify(w: World, ray: Ray): (r: Outcome)
    requires w.Valid()
    ensures r.Miss? <==> Closest(w, ray, |w.components|).None?
  {
    match Closest(w, ray, |w.components|)
    case None => Miss
    case Some(best) =>
      var c := w.components[best.index];
      var normal := WorldNormal(w.lib, c.localToWorld, best.hit.objectNormal);
      match c.material
      case None => Unlit(best.hit.dist, normal)
      case Some(m) => Lit(best.hit.dist, normal, best.hit.point, m)
  }

  /** The mirrored ray leaving `point`: the normalized incoming direction reflected about `normal`, nudged off the surface. */
  function ReflectionRay(lib: Library, ray: Ray, point: Vec3, normal: Vec3): Ray
  {
    var direction := Reflect(lib.normalize(ray.direction), normal);
    Ray(Add(point, Scale(Epsilon, direction)), direction)
  }

  /** Whether a lit hit spawns a reflection ray with `bounces` remaining. */
  predicate Reflects(m: Material, bounces: nat)
  {
    bounces > 0 && Reflectivity(m) > ReflectivityThreshold
  }

  /** The colour of a ray before any reflection: background, magenta or local shading. */
  function Local(w: World, ray: Ray): Result<Vec3, IlluminationError>
    requires w.Valid()
  {
    match Classify(w, ray)
    case Miss => Ok(Background(w, ray.direction))
    case Unlit(_, _) => Ok(Magenta)
    case Lit(_, normal, point, m) => Shade(w, point, normal, ray.direction, m)
  }

  /** The colour a ray brings back with `bounces` reflections left. */
  function Trace(w: World, ray: Ray, bounces: nat): Result<Vec3, IlluminationError>
    requires w.Valid()
    decreases bounces
  {
    match Classify(w, ray)
    case Miss => Ok(Background(w, ray.direction))
    case Unlit(_, _) => Ok(Magenta)
    case Lit(_, normal, point, m) =>
      match Shade(w, point, normal, ray.direction, m)
      case Err(e) => Err(e)
      case Ok(local) =>
        if Reflects(m, bounces) then
          match Trace(w, ReflectionRay(w.lib, ray, point, normal), bounces - 1)
          case Err(e) => Err(e)
          case Ok(reflected) => Ok(Add(local, Mul(m.specular, reflected)))
        else Ok(local)
  }

  /** How many reflection rays a trace casts, one inside the other. */
  function Depth(w: World, ray: Ray, bounces: nat): nat
    requires w.Valid()
    decreases bounces
  {
    match Classify(w, ray)
    case Lit(_, normal, point, m) =>
      if Shade(w, point, normal, ray.direction, m).Ok? && Reflects(m, bounces)
      then 1 + Depth(w, ReflectionRay(w.lib, ray, point, normal), bounces - 1)
      else 0
    case _ => 0
  }

  /** The reflection chain is never deeper than the bounces it was given. */
  lemma {:induction false} DepthBounded(w: World, ray: Ray, bounces: nat)
    requires w.Valid()
    ensures Depth(w, ray, bounces) <= bounces
    decreases bounces
  {
    match Classify(w, ray)
    case Lit(_, normal, point, m) =>
      if Shade(w, point, normal, ray.direction, m).Ok? && Reflects(m, bounces) {
        DepthBounded(w, ReflectionRay(w.lib, ray, point, normal), bounces - 1);
      }
    case _ =>
  }

  /** With no bounces left, no reflection ray is cast and the colour is the local one. */
  lemma NoBouncesIsLocal(w: World, ray: Ray)
    requires w.Valid()
    ensures Depth(w, ray, 0) == 0
    ensures Trace(w, ray, 0) == Local(w, ray)
  {
  }

  /**
   A hit that does not reflect (no bounces left, or a material at or below
   the reflectivity threshold) casts no reflection ray and gives the local colour.
   */
  lemma DullOrSpentIsLocal(w: World, ray: Ray, bounces: nat)
    requires w.Valid()
    requires Classify(w, ray).Lit? && !Reflects(Classify(w, ray).material, bounces)
    ensures Depth(w, ray, bounces) == 0
    ensures Trace(w, ray, bounces) == Local(w, ray)
  {
  }

  /**
   A reflective hit with bounces left adds the mirrored ray's colour,
   traced with one bounce fewer and weighted by the specular colour, to
   the local colour.
   */
  lemma ReflectionAddsWeightedColour(w: World, ray: Ray, bounces: nat)
    requires w.Valid() && Classify(w, ray).Lit?
    requires Reflects(Classify(w, ray).material, bounces)
    requires Local(w, ray).Ok?
    ensures var o := Classify(w, ray);
      var reflected := Trace(w, ReflectionRay(w.lib, ray, o.point, o.normal), bounces - 1);
      && (reflected.Ok? ==> Trace(w, ray, bounces) == Ok(Add(Local(w, ray).value, Mul(o.material.specular, reflected.value))))
      && (reflected.Err? ==> Trace(w, ray, bounces) == Err(reflected.error))
  {
  }

  /** A ray that hits nothing gets the background: the cube map's texel if there is one, else the background colour. */
  lemma MissIsBackground(w: World, ray: Ray, bounces: nat)
    requires w.Valid()
    requires forall j :: 0 <= j < |w.components| ==> Probe(w, w.components[j], ray).None?
    ensures Trace(w, ray, bounces) == Ok(if w.cubeMap.Some? then w.cubeMap.value(ray.direction) else w.background)
  {
    ClosestIsFirstMinimum(w, ray, |w.components|);
  }

  /** A closest hit on a node without material is magenta, whatever the bounces. */
  lemma MissingMaterialIsMagenta(w: World, ray: Ray, bounces: nat)
    requires w.Valid()
    requires Closest(w, ray, |w.components|).Some?
    requires w.components[Closest(w, ray, |w.components|).value.index].material.None?
    ensures Trace(w, ray, bounces) == Ok(Vec3(1.0, 0.0, 1.0))
  {
  }

  /** Pixel `i` of `size` mapped to its centre in normalized device coordinates. */
  function Ndc(i: nat, size: nat): real
    requires size > 0
  {
    2.0 * ((i as real) + 0.5) / (size as real) - 1.0
  }

  /** Every pixel centre lies strictly inside (-1, 1). */
  lemma NdcInside(i: nat, size: nat)
    requires i < size
    ensures -1.0 < Ndc(i, size) < 1.0
  {
    var p, n := 2.0 * ((i as real) + 0.5), size as real;
    assert 0.0 < p < 2.0 * n;
    Quotient(p, n);
  }

  /** Mirrored pixels map to opposite coordinates: the mapping is symmetric about the image centre. */
  lemma NdcSymmetric(i: nat, size: nat)
    requires i < size
    ensures Ndc(size - 1 - i, size) == -Ndc(i, size)
  {
    var n := size as real;
    var p, q := 2.0 * ((i as real) + 0.5), 2.0 * (((size - 1 - i) as real) + 0.5);
    assert p + q == 2.0 * n;
    Quotient(p, n);
    Quotient(q, n);
  }

  /** The quotient by a positive number, tied back to the dividend. */
  lemma Quotient(p: real, n: real)
    requires n > 0.0
    ensures (p / n) * n == p
    ensures 0.0 < p < 2.0 * n ==> 0.0 < p / n < 2.0
  {
  }
}

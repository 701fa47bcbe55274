/**
 Per-light illumination: for a light and a shading point, the direction to
 the light, the light's intensity arriving there, and the distance to it.
 */
module Illuminator {
  import opened Wrappers
  import opened Glm

  /** The closed set of light kinds, with the fields the tracer reads. */
  datatype Light =
    | Directional(diffuse: Vec3, direction: Vec3)
    | Point(diffuse: Vec3, attenuation: Vec3)
    | Ambient(ambient: Vec3)

  /** A light attached to a scene node, with that node's local-to-world matrix. */
  datatype LightComponent = LightComponent(light: Light, localToWorld: Mat4)

  /**
   The intensity arriving at a point: a finite colour, or unbounded when the
   point light's falloff `1 / (attenuation.x * dist * dist)` divides by zero
   (an infinite float in the source).
   */
  datatype Intensity = Finite(colour: Vec3) | Unbounded

  /** The three outputs of the lookup. */
  datatype Illumination = Illumination(dirToLight: Vec3, intensity: Intensity, distToLight: real)

  datatype IlluminationError =
    | UnrecognizedLight       // the exception thrown for a light that is neither directional nor point
    | ZeroFalloffDenominator  // an unbounded light reaches the point unblocked, so the colour is not finite

  /** The translation column (column 3) of a node's local-to-world matrix. */
  function Position(m: Mat4): Vec3 { Xyz(m.c3) }

  /**
   The illumination a light casts on the point `hitPos`. A directional light
   shines along its direction from infinitely far with its full colour; a
   point light sits at its node's translation and falls off with the
   inverse square of the distance, scaled by `attenuation.x` alone (its
   intensity is unbounded when that factor is zero); any other light is an
   error.
   */
  function GetIllumination(lib: Library, lc: LightComponent, hitPos: Vec3): (r: Result<Illumination, IlluminationError>)
    ensures r.Err? <==> lc.light.Ambient?
    ensures r.Err? ==> r.error == UnrecognizedLight
    ensures lc.light.Directional? ==>
      (r.Ok? && r.value.distToLight == FloatMax
       && Add(r.value.dirToLight, lc.light.direction) == Zero && r.value.intensity == Finite(lc.light.diffuse))
    ensures lc.light.Point? ==>
      var toLight := Sub(Position(lc.localToWorld), hitPos);
      var dist := lib.length(toLight);
      && r.Ok? && r.value.distToLight == dist && r.value.dirToLight == lib.normalize(toLight)
      && (r.value.intensity.Unbounded? <==> lc.light.attenuation.x * dist * dist == 0.0)
      && (r.value.intensity.Finite? ==>
            Scale(lc.light.attenuation.x * dist * dist, r.value.intensity.colour) == lc.light.diffuse)
  {
    match lc.light
    case Directional(diffuse, direction) =>
      Ok(Illumination(Neg(direction), Finite(diffuse), FloatMax))
    case Point(diffuse, attenuation) =>
      var lightVector := Sub(Position(lc.localToWorld), hitPos);
      var dist := lib.length(lightVector);
      var dir := lib.normalize(lightVector);
      var denominator := attenuation.x * dist * dist;
      if denominator == 0.0 then Ok(Illumination(dir, Unbounded, dist))
      else
        var falloff := 1.0 / denominator;
        InverseScale(denominator, diffuse);
        Ok(Illumination(dir, Finite(Scale(falloff, diffuse)), dist))
    case Ambient(_) =>
      Err(UnrecognizedLight)
  }

  /** Scaling by `1 / s` and then by `s` gives the vector back. */
  lemma InverseScale(s: real, v: Vec3)
    requires s != 0.0
    ensures Scale(s, Scale(1.0 / s, v)) == v
  {
    assert s * (1.0 / s) == 1.0;
    assert s * ((1.0 / s) * v.x) == (s * (1.0 / s)) * v.x;
    assert s * ((1.0 / s) * v.y) == (s * (1.0 / s)) * v.y;
    assert s * ((1.0 / s) * v.z) == (s * (1.0 / s)) * v.z;
  }

  /**
   A point light's illumination depends on its attenuation only through the
   x component, and on its node's matrix only through the translation column.
   */
  lemma {:induction false} PointLightReadsOnlyAttenuationXAndTranslation(
    lib: Library, a: LightComponent, b: LightComponent, hitPos: Vec3)
    requires a.light.Point? && b.light.Point?
    requires a.light.diffuse == b.light.diffuse && a.light.attenuation.x == b.light.attenuation.x
    requires Position(a.localToWorld) == Position(b.localToWorld)
    ensures GetIllumination(lib, a, hitPos) == GetIllumination(lib, b, hitPos)
  {
    var toLight := Sub(Position(a.localToWorld), hitPos);
    assert toLight == Sub(Position(b.localToWorld), hitPos);
    var dist := lib.length(toLight);
    PointIlluminationClosedForm(lib, a, hitPos, toLight, dist);
    PointIlluminationClosedForm(lib, b, hitPos, toLight, dist);
    var denominator := a.light.attenuation.x * dist * dist;
    if denominator != 0.0 {
      var ra, rb := GetIllumination(lib, a, hitPos), GetIllumination(lib, b, hitPos);
      assert ra.value.dirToLight == rb.value.dirToLight;
      assert ra.value.distToLight == rb.value.distToLight;
      assert ra.value.intensity == rb.value.intensity;
    }
  }

  /** A point light's illumination in closed form, read off the node's translation and `attenuation.x`. */
  lemma PointIlluminationClosedForm(lib: Library, lc: LightComponent, hitPos: Vec3, toLight: Vec3, dist: real)
    requires lc.light.Point?
    requires toLight == Sub(Position(lc.localToWorld), hitPos) && dist == lib.length(toLight)
    ensures lc.light.attenuation.x * dist * dist == 0.0 ==>
      GetIllumination(lib, lc, hitPos) == Ok(Illumination(lib.normalize(toLight), Unbounded, dist))
    ensures lc.light.attenuation.x * dist * dist != 0.0 ==>
      GetIllumination(lib, lc, hitPos)
        == Ok(Illumination(lib.normalize(toLight), Finite(Scale(1.0 / (lc.light.attenuation.x * dist * dist), lc.light.diffuse)), dist))
  {
    var r := GetIllumination(lib, lc, hitPos);
    var den := lc.light.attenuation.x * dist * dist;
    if den != 0.0 {
      assert r.Ok?;
      assert r.value.dirToLight == lib.normalize(toLight);
      assert r.value.distToLight == dist;
      assert r.value.intensity.colour.x == (1.0 / den) * lc.light.diffuse.x;
      assert r.value.intensity.colour == Scale(1.0 / den, lc.light.diffuse);
    }
  }

  /** With a foreign length that is never negative, a point light is never at negative distance. */
  lemma {:induction false} PointLightDistanceNonNegative(lib: Library, lc: LightComponent, hitPos: Vec3)
    requires LengthNonNegative(lib)
    requires GetIllumination(lib, lc, hitPos).Ok?
    ensures GetIllumination(lib, lc, hitPos).value.distToLight >= 0.0
  {
    var r := GetIllumination(lib, lc, hitPos);
    if lc.light.Point? {
      assert r.value.distToLight == lib.length(Sub(Position(lc.localToWorld), hitPos));
    }
  }

  /** A directional light reaches every point alike: neither the point nor the node matters. */
  lemma {:induction false} DirectionalLightIsUniform(lib: Library, lc: LightComponent, m: Mat4, p: Vec3, q: Vec3)
    requires lc.light.Directional?
    ensures GetIllumination(lib, lc, p) == GetIllumination(lib, LightComponent(lc.light, m), q)
  {
  }
}

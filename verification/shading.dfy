/**
 The local Phong shading of a hit point: an ambient sum over the ambient
 lights, then for every other light a shadow test and, when the light is
 not blocked, a diffuse and a specular term.
 */
module Shading {
  import opened Wrappers
  import opened Glm
  import opened Illuminator
  import opened Scenes

  /** The offset along a secondary ray's direction that keeps it off the surface it leaves. */
  const Epsilon: real := 0.001

  /** `std::max(0, s)`: `s` when it is above zero, else zero. */
  function Max0(s: real): (r: real)
    ensures r >= 0.0 && r >= s
    ensures r == s || r == 0.0
  {
    if 0.0 < s then s else 0.0
  }

  /**
   The ambient term: over the lights in order, each ambient light adds the
   component-wise product of the material's and the light's ambient colours.
   */
  function AmbientSum(lights: seq<LightComponent>, m: Material): Vec3
  {
    if lights == [] then Zero
    else
      var previous := AmbientSum(lights[..|lights| - 1], m);
      var light := lights[|lights| - 1].light;
      if light.Ambient? then Add(previous, Mul(m.ambient, light.ambient)) else previous
  }

  /** Lights that are not ambient add nothing to the ambient term. */
  lemma {:induction false} AmbientSumOfNonAmbient(lights: seq<LightComponent>, m: Material)
    requires forall i :: 0 <= i < |lights| ==> !lights[i].light.Ambient?
    ensures AmbientSum(lights, m) == Zero
  {
    if lights != [] {
      AmbientSumOfNonAmbient(lights[..|lights| - 1], m);
    }
  }

  /** The ambient term of two runs of lights is the sum of their ambient terms. */
  lemma {:induction false} AmbientSumAppend(a: seq<LightComponent>, b: seq<LightComponent>, m: Material)
    ensures AmbientSum(a + b, m) == Add(AmbientSum(a, m), AmbientSum(b, m))
  {
    if b == [] {
      assert a + b == a;
    } else {
      assert (a + b)[..|a + b| - 1] == a + b[..|b| - 1];
      AmbientSumAppend(a, b[..|b| - 1], m);
    }
  }

  /** The shadow ray toward a light: from just off the point, along the direction to the light. */
  function ShadowRay(point: Vec3, dirToLight: Vec3): Ray
  {
    Ray(Add(point, Scale(Epsilon, dirToLight)), dirToLight)
  }

  /** Component `c` blocks the light when it hits the shadow ray short of the light by more than `Epsilon`. */
  predicate Blocks(w: World, c: Component, shadowRay: Ray, distToLight: real)
    requires c.Valid()
  {
    var hit := Probe(w, c, shadowRay);
    hit.Some? && hit.value.dist < distToLight - Epsilon
  }

  /** Some component blocks the light. */
  predicate Occluded(w: World, point: Vec3, il: Illumination)
    requires w.Valid()
  {
    exists j :: 0 <= j < |w.components| && Blocks(w, w.components[j], ShadowRay(point, il.dirToLight), il.distToLight)
  }

  /** The diffuse term: `max(0, n . l)` times the material's diffuse colour, times the light. */
  function Diffuse(normal: Vec3, il: Illumination, m: Material): Vec3
    requires il.intensity.Finite?
  {
    Mul(Scale(Max0(Dot(normal, il.dirToLight)), m.diffuse), il.intensity.colour)
  }

  /**
   The specular term: the light's direction mirrored about the normal,
   `max(0, r . v)` raised to the shininess, times the material's specular
   colour, times the light.
   */
  function Specular(lib: Library, normal: Vec3, view: Vec3, il: Illumination, m: Material): Vec3
    requires il.intensity.Finite?
  {
    var reflected := Reflect(Neg(il.dirToLight), normal);
    Mul(Scale(lib.pow(Max0(Dot(reflected, view)), m.shininess), m.specular), il.intensity.colour)
  }

  /**
   What one light adds to the direct term: nothing (`None`) for an ambient
   light or a blocked one, the illumination's error if the lookup fails,
   an error for an unblocked light of unbounded intensity (its colour would
   not be finite), else diffuse plus specular. The shadow test comes before
   the intensity is used, so a blocked unbounded light adds nothing.
   */
  function LightTerm(w: World, lc: LightComponent, point: Vec3, normal: Vec3, view: Vec3, m: Material)
    : Result<Option<Vec3>, IlluminationError>
    requires w.Valid()
  {
    if lc.light.Ambient? then Ok(None)
    else
      match GetIllumination(w.lib, lc, point)
      case Err(e) => Err(e)
      case Ok(il) =>
        if w.shadowsEnabled && Occluded(w, point, il) then Ok(None)
        else if il.intensity.Unbounded? then Err(ZeroFalloffDenominator)
        else Ok(Some(Add(Diffuse(normal, il, m), Specular(w.lib, normal, view, il, m))))
  }

  /**
   The direct term over lights `k..`, added onto `acc` in order; the first
   failing lookup aborts the sum.
   */
  function DirectFrom(w: World, point: Vec3, normal: Vec3, view: Vec3, m: Material, k: nat, acc: Vec3)
    : Result<Vec3, IlluminationError>
    requires w.Valid() && k <= |w.lights|
    decreases |w.lights| - k
  {
    if k == |w.lights| then Ok(acc)
    else
      match LightTerm(w, w.lights[k], point, normal, view, m)
      case Err(e) => Err(e)
      case Ok(None) => DirectFrom(w, point, normal, view, m, k + 1, acc)
      case Ok(Some(term)) => DirectFrom(w, point, normal, view, m, k + 1, Add(acc, term))
  }

  /**
   The shaded colour of a hit at `point` with world normal `normal`, seen
   along `rayDirection`: the direct term added onto the ambient term.
   */
  function Shade(w: World, point: Vec3, normal: Vec3, rayDirection: Vec3, m: Material): Result<Vec3, IlluminationError>
    requires w.Valid()
  {
    DirectFrom(w, point, normal, w.lib.normalize(Neg(rayDirection)), m, 0, AmbientSum(w.lights, m))
  }

  /**
   A non-ambient light adds nothing exactly when shadows are on and some
   component blocks it, whatever its intensity; an unblocked light of
   unbounded intensity is the only error; otherwise it adds diffuse plus
   specular.
   */
  lemma LightTermSkippedIffOccluded(w: World, lc: LightComponent, point: Vec3, normal: Vec3, view: Vec3, m: Material)
    requires w.Valid() && !lc.light.Ambient?
    ensures GetIllumination(w.lib, lc, point).Ok?
    ensures var il, t := GetIllumination(w.lib, lc, point).value, LightTerm(w, lc, point, normal, view, m);
      && (t == Ok(None) <==> w.shadowsEnabled && Occluded(w, point, il))
      && (t.Err? <==> il.intensity.Unbounded? && !(w.shadowsEnabled && Occluded(w, point, il)))
      && (t.Err? ==> t.error == ZeroFalloffDenominator)
      && (t.Ok? && t.value.Some? ==>
            il.intensity.Finite? && t.value.value == Add(Diffuse(normal, il, m), Specular(w.lib, normal, view, il, m)))
  {
  }

  /** Shifting the starting colour of the direct sum shifts its result by the same amount. */
  lemma {:induction false} DirectFromShift(w: World, point: Vec3, normal: Vec3, view: Vec3, m: Material, k: nat, a: Vec3, b: Vec3)
    requires w.Valid() && k <= |w.lights|
    ensures var r, s := DirectFrom(w, point, normal, view, m, k, Add(a, b)), DirectFrom(w, point, normal, view, m, k, b);
      && r.Ok? == s.Ok?
      && (r.Ok? ==> r.value == Add(a, s.value))
      && (r.Err? ==> r.error == s.error)
    decreases |w.lights| - k
  {
    if k < |w.lights| {
      var t := LightTerm(w, w.lights[k], point, normal, view, m);
      if t.Ok? && t.value.None? {
        DirectFromShift(w, point, normal, view, m, k + 1, a, b);
      } else if t.Ok? {
        var term := t.value.value;
        assert Add(Add(a, b), term) == Add(a, Add(b, term));
        DirectFromShift(w, point, normal, view, m, k + 1, a, Add(b, term));
      }
    }
  }

  /**
   The shaded colour is the ambient term plus the direct term alone (the
   direct sum started from black): the ambient part does not depend on any
   shadow test.
   */
  lemma {:induction false} ShadeIsAmbientPlusDirect(w: World, point: Vec3, normal: Vec3, rayDirection: Vec3, m: Material)
    requires w.Valid()
    ensures var view := w.lib.normalize(Neg(rayDirection));
      var r, d := Shade(w, point, normal, rayDirection, m), DirectFrom(w, point, normal, view, m, 0, Zero);
      && r.Ok? == d.Ok?
      && (r.Ok? ==> r.value == Add(AmbientSum(w.lights, m), d.value))
  {
    var view := w.lib.normalize(Neg(rayDirection));
    var ambient := AmbientSum(w.lights, m);
    assert Add(ambient, Zero) == ambient;
    DirectFromShift(w, point, normal, view, m, 0, ambient, Zero);
  }

  /**
   With shadows on and every non-ambient light blocked, whatever its
   intensity, the direct sum adds nothing: only the ambient term is left.
   */
  lemma {:induction false} FullyShadowedIsAmbientOnly(w: World, point: Vec3, normal: Vec3, view: Vec3, m: Material, k: nat, acc: Vec3)
    requires w.Valid() && w.shadowsEnabled && k <= |w.lights|
    requires forall i :: k <= i < |w.lights| && !w.lights[i].light.Ambient? ==>
      var il := GetIllumination(w.lib, w.lights[i], point);
      il.Ok? && Occluded(w, point, il.value)
    ensures DirectFrom(w, point, normal, view, m, k, acc) == Ok(acc)
    decreases |w.lights| - k
  {
    if k < |w.lights| {
      FullyShadowedIsAmbientOnly(w, point, normal, view, m, k + 1, acc);
    }
  }

  /**
   With shadows off, every non-ambient light of finite intensity adds its
   diffuse and specular terms: no component is consulted.
   */
  lemma ShadowsOffEveryLightContributes(w: World, lc: LightComponent, point: Vec3, normal: Vec3, view: Vec3, m: Material)
    requires w.Valid() && !w.shadowsEnabled && !lc.light.Ambient?
    requires GetIllumination(w.lib, lc, point).Ok? && GetIllumination(w.lib, lc, point).value.intensity.Finite?
    ensures var il := GetIllumination(w.lib, lc, point).value;
      LightTerm(w, lc, point, normal, view, m) == Ok(Some(Add(Diffuse(normal, il, m), Specular(w.lib, normal, view, il, m))))
  {
  }

  /**
   A white directional light shining straight down on an upward normal:
   the light is full on, `n . l == 1`, so the diffuse term is the
   material's diffuse colour; with a view direction orthogonal to the
   mirrored light the specular base is zero.
   */
  lemma {:induction false} OverheadWhiteLightDiffuse(lib: Library, node: Mat4, point: Vec3, view: Vec3, m: Material)
    requires view.y == 0.0
    ensures var lc := LightComponent(Directional(Vec3(1.0, 1.0, 1.0), Vec3(0.0, -1.0, 0.0)), node);
      var il := GetIllumination(lib, lc, point);
      && il.Ok?
      && Diffuse(Vec3(0.0, 1.0, 0.0), il.value, m) == m.diffuse
      && Max0(Dot(Reflect(Neg(il.value.dirToLight), Vec3(0.0, 1.0, 0.0)), view)) == 0.0
  {
    var lc := LightComponent(Directional(Vec3(1.0, 1.0, 1.0), Vec3(0.0, -1.0, 0.0)), node);
    var il := GetIllumination(lib, lc, point).value;
    assert il == Illumination(Vec3(0.0, 1.0, 0.0), Finite(Vec3(1.0, 1.0, 1.0)), FloatMax);
    UpwardDiffuse(il, Vec3(0.0, 1.0, 0.0), m);
    UpwardSpecularBase(il.dirToLight, Vec3(0.0, 1.0, 0.0), view);
  }

  /** The diffuse arithmetic of the overhead case. */
  lemma UpwardDiffuse(il: Illumination, up: Vec3, m: Material)
    requires up == Vec3(0.0, 1.0, 0.0)
    requires il.dirToLight == up && il.intensity == Finite(Vec3(1.0, 1.0, 1.0))
    ensures Diffuse(up, il, m) == m.diffuse
  {
    assert Dot(up, il.dirToLight) == 1.0;
  }

  /** The specular arithmetic of the overhead case. */
  lemma UpwardSpecularBase(d: Vec3, up: Vec3, view: Vec3)
    requires up == Vec3(0.0, 1.0, 0.0) && d == up
    requires view.y == 0.0
    ensures Max0(Dot(Reflect(Neg(d), up), view)) == 0.0
  {
    MirroredDownIsUp(d, up);
    UpIsOrthogonal(up, view);
  }

  /** The upward normal is orthogonal to every horizontal direction. */
  lemma UpIsOrthogonal(up: Vec3, view: Vec3)
    requires up == Vec3(0.0, 1.0, 0.0)
    requires view.y == 0.0
    ensures Dot(up, view) == 0.0
  {
  }

  /** The downward direction mirrored about the upward normal points up. */
  lemma MirroredDownIsUp(d: Vec3, up: Vec3)
    requires up == Vec3(0.0, 1.0, 0.0) && d == up
    ensures Reflect(Neg(d), up) == up
  {
    assert Dot(up, Neg(d)) == -1.0;
    assert Scale(2.0 * Dot(up, Neg(d)), up) == Vec3(0.0, -2.0, 0.0);
  }
}

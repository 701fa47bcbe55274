# A Whitted ray tracer, modelled in Dafny

This project models the core of a small Whitted-style ray tracer, the
`GLOO` assignment-4 tracer. All scalars are exact `real`s.

- **Plane intersection** (`Planes`). `Plane` is a class. Its `Intersect`
  rejects near-parallel rays and solves for `t`. It accepts only
  `tMin <= t < record.time` and then overwrites the `HitRecord` in place.
- **Triangle intersection** (`Triangles`). `Triangle` is a class holding the
  `positions`/`normals` vectors. Its `Intersect` solves the 3×3 system
  `[-D | e1 | e2] (t, beta, gamma) = o - v0` by Cramer's rule, applies the
  determinant, barycentric and window tests, and writes the normalized
  interpolated normal.
- **Illumination lookup** (`Illuminator`). This is a pure function over the
  closed set of light kinds: directional, point, and anything else (an
  error).
- **Tracer** (`Tracers.Tracer`). This is a class whose methods mirror
  `Render`, `TraceRay` and `ComputePhongShading`:
  - the pixel loops, which map pixels to normalized device coordinates and
    clamp colours;
  - the closest-hit search, where a strict `<` lets the first minimum win;
  - the background and magenta fallbacks;
  - the ambient sum;
  - the per-light shadow test with `break`;
  - the diffuse and specular terms;
  - reflection bounded by `bounces` and gated on mean specular `> 0.01`.

  Each method is proved equal to a pure specification, which lives in the
  modules `Scenes`, `Shading` and `Tracing`. Lemmas then state what the
  tracer promises about those specifications.

The glm, C++ math library and `Ray` routines that the core calls are
parameters, held as the function-valued fields of `Glm.Library`:
`glm::length`, `glm::normalize`, `std::pow`, `glm::inverse` and
`Ray::ApplyTransform`. So are `Camera::GenerateRay` (`Tracers.Camera`) and the
cube map's `GetTexel` (`World.cubeMap`).

## Model

| member | source | states |
|---|---|---|
| HitRecords.HitRecord.constructor | assignment_code/assignment4/Tracer.cpp:33 | a fresh record's time is the float maximum, beyond every finite hit |
| Planes.Plane.constructor | assignment_code/assignment4/hittable/Plane.cpp:4-7 | the stored normal is the normalized argument and the offset is `d` |
| Planes.Plane.Intersect | assignment_code/assignment4/hittable/Plane.cpp:9-32 | returns true exactly when the hit function accepts; on true the record holds that hit's `t` and normal; on false both record fields are unchanged |
| Planes.ParallelRayMisses | assignment_code/assignment4/hittable/Plane.cpp:13-18 | a ray with `abs(D . n) < 1e-6` is never accepted, whatever the record holds |
| Planes.HitIsOnPlaneInWindow | assignment_code/assignment4/hittable/Plane.cpp:20-29 | an accepted `t` satisfies `tMin <= t < old time` (the record only tightens), the normal is the stored one unflipped, and `(o + tD) . n == d` |
| Planes.OnPlaneInWindowIsHit | assignment_code/assignment4/hittable/Plane.cpp:13-29 | conversely, a non-parallel ray meeting the plane at a parameter inside the window is hit exactly there |
| Planes.DownwardRayHitsGround | assignment_code/assignment4/hittable/Plane.cpp:13-29 | normal (0,1,0), d = 0, ray from (0,5,0) along (0,-1,0), tMin 0, record time > 5: hit at t = 5 with normal (0,1,0) |
| Triangles.Triangle.constructor | assignment_code/assignment4/hittable/Triangle.cpp:12-24 | stores positions `[p0, p1, p2]` and normals `[n0, n1, n2]` in argument order, which satisfies the three-entry requirement of `Intersect` |
| Triangles.Triangle.FromVectors | assignment_code/assignment4/hittable/Triangle.cpp:26-30 | copies both vectors as given, without checking their size |
| Triangles.Cramer | assignment_code/assignment4/hittable/Triangle.cpp:58-66 | the solve fails exactly when `abs(det(A)) < 1e-6` |
| Triangles.CramerIsSolution | assignment_code/assignment4/hittable/Triangle.cpp:64-66 | whenever the solve succeeds, `t a0 + beta a1 + gamma a2 == b`: it is `inverse(A) * b` |
| Triangles.CramerIsUnique | assignment_code/assignment4/hittable/Triangle.cpp:59-66 | conversely, for non-degenerate columns the solve of `t a0 + beta a1 + gamma a2` gives back exactly `(t, beta, gamma)`: the solution is unique |
| Triangles.Triangle.Intersect | assignment_code/assignment4/hittable/Triangle.cpp:32-96 | returns true exactly when the hit function accepts; on true the record holds that hit's `t` and normal; on false both record fields are unchanged |
| Triangles.DegenerateSystemMisses | assignment_code/assignment4/hittable/Triangle.cpp:50-62 | a system with `abs(det([-D, e1, e2])) < 1e-6` is never accepted |
| Triangles.OutsideMisses | assignment_code/assignment4/hittable/Triangle.cpp:75-77 | a solution with `beta < 0`, `gamma < 0` or `beta + gamma > 1` is never accepted |
| Triangles.AcceptedHitSolvesSystem | assignment_code/assignment4/hittable/Triangle.cpp:47-93 | an accepted hit has `o + tD == v0 + beta e1 + gamma e2`, has alpha, beta and gamma all `>= 0` with `alpha + beta + gamma == 1`, has `tMin <= t < old time`, and carries the normalized interpolated normal |
| Triangles.InsideInWindowIsHit | assignment_code/assignment4/hittable/Triangle.cpp:71-93 | a solve result inside the triangle with `t` in the window is accepted, with `t` and the normalized interpolated normal: the inside and window tests are the only ones after the solve |
| Triangles.PointInTriangleInWindowIsHit | assignment_code/assignment4/hittable/Triangle.cpp:47-93 | geometric converse of `AcceptedHitSolvesSystem`: for a non-degenerate system, if the ray point at `s` is `v0 + beta e1 + gamma e2` with `beta, gamma >= 0`, `beta + gamma <= 1` and `tMin <= s < time`, the hit is at `s` with the normalized interpolated normal |
| Illuminator.GetIllumination | assignment_code/assignment4/Illuminator.cpp:13-56 | three cases, one per light kind: (1) directional: `dir == -direction`, intensity is the diffuse colour, distance is the float maximum; (2) point: `dist == length(pos - hit)`, `dir == normalize(pos - hit)`, and the intensity is unbounded exactly when `attenuation.x * dist^2 == 0`, otherwise scaling it by that factor gives the diffuse colour back; (3) an error exactly for a light of any other kind |
| Illuminator.PointLightReadsOnlyAttenuationXAndTranslation | assignment_code/assignment4/Illuminator.cpp:30-51 | two point lights that agree on colour, `attenuation.x` and the matrix's translation column illuminate alike |
| Illuminator.PointLightDistanceNonNegative | assignment_code/assignment4/Illuminator.cpp:34-40 | the distance to a light is never negative (given a non-negative length) |
| Illuminator.DirectionalLightIsUniform | assignment_code/assignment4/Illuminator.cpp:20-24 | a directional light's illumination depends neither on the point nor on the node |
| Glm.Clamp01 | assignment_code/assignment4/Tracer.cpp:36 | every written component lies in [0, 1], and components already there are kept |
| Glm.Clamp01Saturates | assignment_code/assignment4/Tracer.cpp:36 | components below 0 become 0 and components above 1 become 1 |
| Glm.Reflect | assignment_code/assignment4/Tracer.cpp:111 | the mirrored direction's component along `n` is the incident one's times `1 - 2 n.n` (negated for a unit normal) |
| Glm.ReflectKeepsTangential | assignment_code/assignment4/Tracer.cpp:111 | the mirror keeps every component orthogonal to `n`: with `Reflect`'s own contract, the tangential part is kept and only the normal part flips |
| Scenes.Background | assignment_code/assignment4/Tracer.cpp:189-194 | the cube map's texel when there is a map, else the background colour |
| Scenes.ToWorld | assignment_code/assignment4/Tracer.cpp:66-68 | for an affine matrix the homogeneous divide is by one: the point is the linear part applied plus the translation |
| Scenes.Shape.Intersect | assignment_code/assignment4/Tracer.cpp:64 | the virtual call, with the same record contract as the primitive's test |
| Scenes.Closest | assignment_code/assignment4/Tracer.cpp:53-80 | a winner is a component among those searched, and that component's probe reports exactly the winning hit |
| Scenes.ClosestStep | assignment_code/assignment4/Tracer.cpp:72-78 | one step of the search: a component replaces the winner only when its distance is strictly below the winner's (below float max when there is none) |
| Scenes.NearestIsFirstMinimum | assignment_code/assignment4/Tracer.cpp:53-80 | the fold's winner is below float max, strictly below every earlier hit and at most every later one; with no winner, no hit is below float max |
| Scenes.ClosestIsFirstMinimum | assignment_code/assignment4/Tracer.cpp:53-80 | the same for components: the chosen component is the first one at minimum world distance |
| Scenes.ClosestDistanceIsMinimum | assignment_code/assignment4/Tracer.cpp:72-78 | any component hitting below float max guarantees a winner no farther away |
| Shading.Max0 | assignment_code/assignment4/Tracer.cpp:175-180 | the diffuse and specular bases are clamped below at zero: the result is `>= 0`, `>= s`, and equals `s` or `0` |
| Shading.AmbientSumOfNonAmbient | assignment_code/assignment4/Tracer.cpp:130-135 | lights that are not ambient add nothing to the ambient term |
| Shading.AmbientSumAppend | assignment_code/assignment4/Tracer.cpp:130-135 | the ambient term over two runs of lights is the sum of the two terms |
| Shading.LightTermSkippedIffOccluded | assignment_code/assignment4/Tracer.cpp:146-183 | a non-ambient light's lookup succeeds; the light adds nothing if and only if shadows are on and some component blocks it short of the light by more than 0.001, whatever its intensity; it is an error if and only if it is unblocked with unbounded intensity; otherwise it adds diffuse plus specular |
| Shading.ShadeIsAmbientPlusDirect | assignment_code/assignment4/Tracer.cpp:127-186 | the shaded colour is the ambient term (never shadowed) plus the direct sum started from black |
| Shading.FullyShadowedIsAmbientOnly | assignment_code/assignment4/Tracer.cpp:149-172 | with shadows on and every non-ambient light blocked, the direct sum adds nothing |
| Shading.ShadowsOffEveryLightContributes | assignment_code/assignment4/Tracer.cpp:149-150 | with shadows off, every non-ambient light of finite intensity adds its diffuse and specular terms |
| Shading.OverheadWhiteLightDiffuse | assignment_code/assignment4/Tracer.cpp:175-181 | a white light straight down on an upward normal gives the material's diffuse colour as the diffuse term, and a zero specular base for a horizontal view |
| Tracing.Classify | assignment_code/assignment4/Tracer.cpp:82-100 | the outcome is a miss exactly when the closest-hit search finds nothing |
| Tracing.DepthBounded | assignment_code/assignment4/Tracer.cpp:106-118 | the reflection chain is never deeper than the bounces it was given |
| Tracing.NoBouncesIsLocal | assignment_code/assignment4/Tracer.cpp:106 | with zero bounces, no reflection ray is cast and the colour is the local one |
| Tracing.DullOrSpentIsLocal | assignment_code/assignment4/Tracer.cpp:106-120 | a hit with no bounces left or with mean specular `<= 0.01` gives the local colour and casts no ray |
| Tracing.ReflectionAddsWeightedColour | assignment_code/assignment4/Tracer.cpp:103-118 | a reflecting hit's colour is `phong + specular * reflected`, with the reflected ray traced at `bounces - 1`; its error propagates |
| Tracing.MissIsBackground | assignment_code/assignment4/Tracer.cpp:82-84 | when no component reports a hit, the colour is the cube map's texel or the background colour |
| Tracing.MissingMaterialIsMagenta | assignment_code/assignment4/Tracer.cpp:95-98 | a closest hit on a node without material is exactly (1, 0, 1) |
| Tracing.NdcInside | assignment_code/assignment4/Tracer.cpp:29-30 | every pixel centre maps strictly inside (-1, 1) |
| Tracing.NdcSymmetric | assignment_code/assignment4/Tracer.cpp:29-30 | mirrored pixels map to opposite coordinates |
| Tracers.Tracer.constructor | assignment_code/assignment4/Tracer.cpp:17-22 | stores the settings read by the tracer (the C++ constructor lives in a header that is not part of this model) and starts with no components or lights; lines 17-22 are where `Render` fills the two vectors |
| Tracers.Tracer.Render | assignment_code/assignment4/Tracer.cpp:17-43 | stores the scene's components and lights. A complete image then has every pixel equal to its traced primary colour clamped to [0, 1]. An aborted render names a pixel whose trace fails with that error |
| Tracers.Tracer.RenderPixels | assignment_code/assignment4/Tracer.cpp:24-39 | the row loop gives the same image as `Render` (whole image or failing pixel) |
| Tracers.Tracer.RenderRow | assignment_code/assignment4/Tracer.cpp:27-38 | one row: every pixel equals its clamped traced colour, or a failing pixel of that row is named; other rows are unchanged |
| Tracers.Tracer.TracePixel | assignment_code/assignment4/Tracer.cpp:29-34 | the colour is the trace of the camera ray through the pixel centre's device coordinates, with the full bounce budget |
| Tracers.Tracer.ProbeComponent | assignment_code/assignment4/Tracer.cpp:54-70 | one component's probe: the object-space test with a fresh record, with the hit taken back to world space and measured from the ray origin |
| Tracers.Tracer.FindClosest | assignment_code/assignment4/Tracer.cpp:46-80 | the loop computes the closest-hit search (first minimum, strict `<`) |
| Tracers.Tracer.TraceRay | assignment_code/assignment4/Tracer.cpp:45-121 | the colour is the recursive trace. On a miss the caller's record is untouched; on a hit it holds the world distance and world normal |
| Tracers.Tracer.ComputePhongShading | assignment_code/assignment4/Tracer.cpp:123-187 | the loop computes the shaded colour: the ambient sum plus each unblocked light's diffuse and specular terms. The shadow test runs before the intensity is used, so a blocked light of unbounded intensity is skipped, and only an unblocked one is an error |
| Tracers.Tracer.AmbientColour | assignment_code/assignment4/Tracer.cpp:129-135 | the loop computes the ambient sum over the lights in order |
| Tracers.Tracer.InShadow | assignment_code/assignment4/Tracer.cpp:149-170 | the loop with `break` is true exactly when some component blocks the shadow ray |

## Left out

- Float rounding. All arithmetic is over exact reals, and the lemmas are not claimed for IEEE single precision. The constants `1e-6`, `0.001`, `0.01` and the float maximum are kept as real constants.
- `glm::length`, `glm::normalize`, `std::pow`, `glm::inverse` (4×4 and 3×3) and `Ray::ApplyTransform`. These are foreign routines, taken as uninterpreted fields of `Glm.Library`. The only property assumed of them is that lengths are never negative, and that is a `requires` of the one lemma that needs it.
- `Triangles.Cramer` computes `inverse(A) * b` by Cramer's rule. Over the reals this is the same vector as glm's inverse-then-multiply, but glm's own rounding is not modelled.
- Scene graph traversal (`GetComponentPtrsInChildren`). `Render` takes the flattened components and lights as sequences.
- The camera's `GenerateRay` is a function parameter of `Tracers.Camera`, and the cube map's `GetTexel` is an optional function of `Scenes.World`.
- `Image::SavePNG` and the output-file test are I/O and are not modelled. `Render` returns the image as a fresh two-dimensional array.
- The perspective divide by `w` after the node matrix. Node matrices are required to be affine (last row `0 0 0 1`), so the divide is by one.
- Exceptions: the unrecognized-light exception is a `Result` error that the tracer propagates. A failed lookup therefore aborts the whole render (`Render` returns the error) instead of unwinding the C++ stack.
- Illuminator.GetIllumination: division by a zero `attenuation.x * dist * dist` is unchecked in C++ and gives an infinite float intensity. The model marks that intensity `Unbounded` instead of giving a float value, because reals have no infinity.
- Tracers.Tracer.ComputePhongShading: when an unbounded light is not blocked, C++ adds an infinite or NaN colour and carries on. The model stops with a `ZeroFalloffDenominator` error, so `Render` reports that pixel. A blocked unbounded light is skipped, as in the source.
- HitRecords.HitRecord.constructor: the record's default time is declared in a header that is not part of this model. It is taken to be the float maximum.
- Tracers.Tracer.Render: pixels are written in the same order as the source. The ensures describes the finished image, or names a failing pixel; it does not describe the partially written image left by an abort.
- `Tracers.Tracer.RenderPixels`, `RenderRow`, `TracePixel`, `ProbeComponent`, `FindClosest`, `AmbientColour` and `InShadow` are the loop bodies of `Render`, `TraceRay` and `ComputePhongShading`, split into methods of their own. The source inlines them.
- Where two hits tie on distance, the earlier component wins, as in the source, and nothing further is modelled.

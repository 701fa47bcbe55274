/**
 The ray tracer: its render settings, the components and lights it
 collects from the scene, and the recursive trace, the Phong shading loop
 and the pixel loop, each proved to compute its specification.
 */
module Tracers {
  import opened Wrappers
  import opened Glm
  import opened HitRecords
  import opened Illuminator
  import opened Scenes
  import opened Shading
  import opened Tracing

  /** The camera: its minimum ray parameter and its ray for a point in normalized device coordinates. */
  datatype Camera = Camera(tMin: real, generateRay: (real, real) -> Ray)

  /** The unclamped colour of pixel `(x, y)`: the trace of the camera's ray through the pixel's centre. */
  function PixelColour(w: World, camera: Camera, width: nat, height: nat, bounces: nat, x: nat, y: nat)
    : Result<Vec3, IlluminationError>
    requires w.Valid() && x < width && y < height
  {
    Trace(w, camera.generateRay(Ndc(x, width), Ndc(y, height)), bounces)
  }

  class Tracer {
    const lib: Library
    const camera: Camera
    const imageWidth: nat
    const imageHeight: nat
    const maxBounces: nat
    const shadowsEnabled: bool
    const backgroundColor: Vec3
    const cubeMap: Option<Vec3 -> Vec3>
    var components: seq<Component>
    var lights: seq<LightComponent>

    /** A tracer with its settings and, until a render collects them, no components and no lights. */
    constructor (lib: Library, camera: Camera, imageWidth: nat, imageHeight: nat, maxBounces: nat,
                 shadowsEnabled: bool, backgroundColor: Vec3, cubeMap: Option<Vec3 -> Vec3>)
      ensures this.lib == lib && this.camera == camera
      ensures this.imageWidth == imageWidth && this.imageHeight == imageHeight && this.maxBounces == maxBounces
      ensures this.shadowsEnabled == shadowsEnabled && this.backgroundColor == backgroundColor && this.cubeMap == cubeMap
      ensures components == [] && lights == []
      ensures Valid()
    {
      this.lib := lib;
      this.camera := camera;
      this.imageWidth := imageWidth;
      this.imageHeight := imageHeight;
      this.maxBounces := maxBounces;
      this.shadowsEnabled := shadowsEnabled;
      this.backgroundColor := backgroundColor;
      this.cubeMap := cubeMap;
      components := [];
      lights := [];
    }

    /** Everything a trace reads, as one value. */
    function World(): World
      reads this
    {
      Scenes.World.World(lib, components, lights, camera.tMin, shadowsEnabled, backgroundColor, cubeMap)
    }

    predicate Valid()
      reads this
    {
      World().Valid()
    }

    /** The unclamped colour of pixel `(x, y)` of this tracer's image. */
    function Pixel(x: nat, y: nat): Result<Vec3, IlluminationError>
      reads this
      requires Valid() && x < imageWidth && y < imageHeight
    {
      PixelColour(World(), camera, imageWidth, imageHeight, maxBounces, x, y)
    }

    /**
     Collects the scene's components and lights, then traces the primary
     ray of every pixel and writes its colour clamped to [0, 1]. A failed
     illumination lookup aborts the render.
     */
    method Render(sceneComponents: seq<Component>, sceneLights: seq<LightComponent>)
      returns (image: array2<Vec3>, failure: Option<IlluminationError>)
      requires forall i :: 0 <= i < |sceneComponents| ==> sceneComponents[i].Valid()
      modifies this
      ensures components == sceneComponents && lights == sceneLights
      ensures fresh(image) && image.Length0 == imageWidth && image.Length1 == imageHeight
      ensures failure.None? ==>
        forall x, y :: 0 <= x < imageWidth && 0 <= y < imageHeight ==>
          Pixel(x, y).Ok? && image[x, y] == Clamp01(Pixel(x, y).value)
      ensures failure.Some? ==>
        exists x, y :: 0 <= x < imageWidth && 0 <= y < imageHeight && Pixel(x, y) == Err(failure.value)
    {
      components := sceneComponents;
      lights := sceneLights;
      image, failure := RenderPixels();
    }

    /**
     The pixel loop: row by row, each pixel's primary ray traced and its
     colour written clamped to [0, 1]; the first failed trace stops the loop.
     */
    method RenderPixels() returns (image: array2<Vec3>, failure: Option<IlluminationError>)
      requires Valid()
      ensures fresh(image) && image.Length0 == imageWidth && image.Length1 == imageHeight
      ensures failure.None? ==>
        forall x, y :: 0 <= x < imageWidth && 0 <= y < imageHeight ==>
          Pixel(x, y).Ok? && image[x, y] == Clamp01(Pixel(x, y).value)
      ensures failure.Some? ==>
        exists x, y :: 0 <= x < imageWidth && 0 <= y < imageHeight && Pixel(x, y) == Err(failure.value)
    {
      ghost var w := World();
      ghost var grid: seq<seq<Vec3>> := [];
      image := new Vec3[imageWidth, imageHeight];
      for y := 0 to imageHeight
        invariant |grid| == y
        invariant forall y' :: 0 <= y' < y ==> |grid[y']| == imageWidth
        invariant forall x', y' :: 0 <= x' < imageWidth && 0 <= y' < y ==> image[x', y'] == Clamp01(grid[y'][x'])
        invariant forall x', y' :: 0 <= x' < imageWidth && 0 <= y' < y ==>
          PixelColour(w, camera, imageWidth, imageHeight, maxBounces, x', y') == Ok(grid[y'][x'])
      {
        ghost var colours;
        failure, colours := RenderRow(image, y);
        if failure.Some? {
          return;
        }
        grid := grid + [colours];
      }
      failure := None;
    }

    /**
     One row of the pixel loop: pixel by pixel, left to right, until a trace
     fails. No other row of the image changes.
     */
    method RenderRow(image: array2<Vec3>, y: nat) returns (failure: Option<IlluminationError>, ghost colours: seq<Vec3>)
      requires Valid() && image.Length0 == imageWidth && image.Length1 == imageHeight && y < imageHeight
      modifies image
      ensures forall x', y' :: 0 <= x' < imageWidth && 0 <= y' < imageHeight && y' != y ==>
        image[x', y'] == old(image[x', y'])
      ensures failure.None? ==> |colours| == imageWidth
      ensures failure.None? ==> forall x :: 0 <= x < imageWidth ==> image[x, y] == Clamp01(colours[x])
      ensures failure.None? ==> forall x :: 0 <= x < imageWidth ==> Pixel(x, y) == Ok(colours[x])
      ensures failure.Some? ==> exists x :: 0 <= x < imageWidth && Pixel(x, y) == Err(failure.value)
    {
      ghost var w := World();
      colours := [];
      for x := 0 to imageWidth
        invariant |colours| == x
        invariant forall x', y' :: 0 <= x' < imageWidth && 0 <= y' < imageHeight && y' != y ==>
          image[x', y'] == old(image[x', y'])
        invariant forall x' :: 0 <= x' < x ==> image[x', y] == Clamp01(colours[x'])
        invariant forall x' :: 0 <= x' < x ==>
          PixelColour(w, camera, imageWidth, imageHeight, maxBounces, x', y) == Ok(colours[x'])
        invariant World() == w
      {
        var color := TracePixel(x, y);
        assert color == PixelColour(w, camera, imageWidth, imageHeight, maxBounces, x, y);
        if color.Err? {
          return Some(color.error), colours;
        }
        image[x, y] := Clamp01(color.value);
        colours := colours + [color.value];
      }
      failure := None;
    }

    /**
     The colour of pixel `(x, y)`: its centre mapped to normalized device
     coordinates, the camera's ray through it traced with the full bounce
     budget and a fresh record.
     */
    method TracePixel(x: nat, y: nat) returns (color: Result<Vec3, IlluminationError>)
      requires Valid() && x < imageWidth && y < imageHeight
      ensures color == Pixel(x, y)
    {
      var px := Ndc(x, imageWidth);
      var py := Ndc(y, imageHeight);
      var ray := camera.generateRay(px, py);
      var record := new HitRecord();
      color := TraceRay(ray, maxBounces, record);
    }

    /**
     One component's part of a closest-hit search: the ray in the node's
     object space, tested against the primitive with a fresh record, and an
     accepted hit taken back to world space and measured from the ray's origin.
     */
    method ProbeComponent(c: Component, ray: Ray) returns (hit: Option<Candidate>)
      requires c.Valid()
      ensures hit == Probe(World(), c, ray)
    {
      var worldToObject := lib.inverse4(c.localToWorld);
      var objectRay := lib.applyTransform(ray, worldToObject);
      var record := new HitRecord();
      var found := c.shape.Intersect(lib, objectRay, camera.tMin, record);
      if !found {
        return None;
      }
      var objectHit := At(objectRay, record.time);
      var world4 := MulVec4(c.localToWorld, Vec4(objectHit.x, objectHit.y, objectHit.z, 1.0));
      assert world4.w == 1.0;
      var worldHit := Vec3(world4.x / world4.w, world4.y / world4.w, world4.z / world4.w);
      var worldDist := lib.length(Sub(worldHit, ray.origin));
      return Some(Candidate(worldDist, record.normal, worldHit));
    }

    /**
     The closest-hit search: every component in order, replacing the
     running winner only on a strictly smaller world distance.
     */
    method FindClosest(ray: Ray) returns (found: Option<Best>)
      requires Valid()
      ensures found == Closest(World(), ray, |components|)
    {
      ghost var w := World();
      var hitAnything := false;
      var closestT := FloatMax;
      var closestNormalObject := Zero;
      var closestHitWorld := Zero;
      var hitIndex := 0;
      for i := 0 to |components|
        invariant hitIndex < |components| || !hitAnything
        invariant Closest(w, ray, i)
          == if hitAnything then Some(Best(hitIndex, Candidate(closestT, closestNormalObject, closestHitWorld))) else None
        invariant !hitAnything ==> closestT == FloatMax
      {
        var candidate := ProbeComponent(components[i], ray);
        ClosestStep(w, ray, i);
        if candidate.Some? && candidate.value.dist < closestT {
          closestT := candidate.value.dist;
          closestNormalObject := candidate.value.objectNormal;
          closestHitWorld := candidate.value.point;
          hitIndex := i;
          hitAnything := true;
        }
      }
      if hitAnything {
        return Some(Best(hitIndex, Candidate(closestT, closestNormalObject, closestHitWorld)));
      }
      return None;
    }

    /**
     The colour of `ray` with `bounces` reflections left. On a hit the
     record receives the world distance and world normal of the closest
     hit; on a miss it is left alone.
     */
    method TraceRay(ray: Ray, bounces: nat, record: HitRecord) returns (color: Result<Vec3, IlluminationError>)
      requires Valid()
      modifies record
      decreases bounces
      ensures color == Trace(World(), ray, bounces)
      ensures Classify(World(), ray).Miss? ==> record.time == old(record.time) && record.normal == old(record.normal)
      ensures !Classify(World(), ray).Miss? ==>
        record.time == Classify(World(), ray).dist && record.normal == Classify(World(), ray).normal
    {
      ghost var w := World();
      var closest := FindClosest(ray);
      if closest.None? {
        assert Classify(w, ray) == Miss;
        assert World() == w;
        return Ok(Background(World(), ray.direction));
      }
      var hitIndex := closest.value.index;
      var closestT := closest.value.hit.dist;
      var closestNormalObject := closest.value.hit.objectNormal;
      var closestHitWorld := closest.value.hit.point;

      var objectToWorld := components[hitIndex].localToWorld;
      var normalTransform := Transpose(lib.inverse3(Upper3(objectToWorld)));
      var normalWorld := lib.normalize(MulVec3(normalTransform, closestNormalObject));
      record.time := closestT;
      record.normal := normalWorld;

      var materialComponent := components[hitIndex].material;
      if materialComponent.None? {
        assert Classify(w, ray) == Unlit(closestT, normalWorld);
        assert Trace(w, ray, bounces) == Ok(Magenta);
        assert World() == w;
        return Ok(Magenta);
      }
      var material := materialComponent.value;
      assert Classify(w, ray) == Lit(closestT, normalWorld, closestHitWorld, material);

      var shaded := ComputePhongShading(closestHitWorld, normalWorld, ray.direction, material);
      assert shaded == Local(w, ray);
      if shaded.Err? {
        assert Trace(w, ray, bounces) == shaded;
        assert World() == w;
        return shaded;
      }
      var local := shaded.value;

      if bounces > 0 {
        var specColor := material.specular;
        var reflectivity := (specColor.x + specColor.y + specColor.z) / 3.0;
        if reflectivity > ReflectivityThreshold {
          var reflectDir := Reflect(lib.normalize(ray.direction), normalWorld);
          var reflectRay := Ray(Add(closestHitWorld, Scale(Epsilon, reflectDir)), reflectDir);
          assert reflectRay == ReflectionRay(lib, ray, closestHitWorld, normalWorld);
          var reflectRecord := new HitRecord();
          var reflectColor := TraceRay(reflectRay, bounces - 1, reflectRecord);
          ReflectionAddsWeightedColour(w, ray, bounces);
          if reflectColor.Err? {
            assert World() == w;
            return reflectColor;
          }
          assert World() == w;
          return Ok(Add(local, Mul(specColor, reflectColor.value)));
        }
      }
      DullOrSpentIsLocal(w, ray, bounces);
      assert World() == w;
      return Ok(local);
    }

    /**
     The Phong colour of a hit: first the ambient lights' sum, then, light
     by light, the direct term of every light that is not ambient and not
     blocked on the way from the point.
     */
    method ComputePhongShading(hitPoint: Vec3, normal: Vec3, rayDir: Vec3, material: Material)
      returns (color: Result<Vec3, IlluminationError>)
      requires Valid()
      ensures color == Shade(World(), hitPoint, normal, rayDir, material)
    {
      var sum := AmbientColour(material);

      var viewDir := lib.normalize(Neg(rayDir));
      for k := 0 to |lights|
        invariant Shade(World(), hitPoint, normal, rayDir, material)
          == DirectFrom(World(), hitPoint, normal, viewDir, material, k, sum)
      {
        var lightComponent := lights[k];
        if lightComponent.light.Ambient? {
          continue;
        }
        var illumination := GetIllumination(lib, lightComponent, hitPoint);
        assert illumination.Ok?;
        var lightDir := illumination.value.dirToLight;

        var inShadow := false;
        if shadowsEnabled {
          inShadow := InShadow(hitPoint, illumination.value);
        }
        if inShadow {
          continue;
        }
        if illumination.value.intensity.Unbounded? {
          return Err(ZeroFalloffDenominator);
        }
        var lightIntensity := illumination.value.intensity.colour;

        var nDotL := Max0(Dot(normal, lightDir));
        var diffuse := Mul(Scale(nDotL, material.diffuse), lightIntensity);
        var reflectDir := Reflect(Neg(lightDir), normal);
        var specFactor := lib.pow(Max0(Dot(reflectDir, viewDir)), material.shininess);
        var specular := Mul(Scale(specFactor, material.specular), lightIntensity);
        sum := Add(sum, Add(diffuse, specular));
      }
      return Ok(sum);
    }

    /** The ambient term: every ambient light's colour times the material's ambient colour, summed in order. */
    method AmbientColour(material: Material) returns (sum: Vec3)
      ensures sum == AmbientSum(lights, material)
    {
      sum := Zero;
      for k := 0 to |lights|
        invariant sum == AmbientSum(lights[..k], material)
      {
        assert lights[..k + 1][..k] == lights[..k];
        if lights[k].light.Ambient? {
          sum := Add(sum, Mul(material.ambient, lights[k].light.ambient));
        }
      }
      assert lights[..|lights|] == lights;
    }

    /**
     The shadow test of one light: the shadow ray from just off the point
     toward the light, probed against every component until one hits it
     short of the light.
     */
    method InShadow(hitPoint: Vec3, illumination: Illumination) returns (inShadow: bool)
      requires Valid()
      ensures inShadow == Occluded(World(), hitPoint, illumination)
    {
      var shadowRay := Ray(Add(hitPoint, Scale(Epsilon, illumination.dirToLight)), illumination.dirToLight);
      assert shadowRay == ShadowRay(hitPoint, illumination.dirToLight);
      inShadow := false;
      for j := 0 to |components|
        invariant !inShadow
        invariant forall i :: 0 <= i < j ==> !Blocks(World(), components[i], shadowRay, illumination.distToLight)
      {
        var shadowHit := ProbeComponent(components[j], shadowRay);
        if shadowHit.Some? && shadowHit.value.dist < illumination.distToLight - Epsilon {
          assert Blocks(World(), components[j], shadowRay, illumination.distToLight);
          inShadow := true;
          break;
        }
      }
    }
  }
}

/** The Whitted ray tracer: the recursive colour computation, its
    refraction helpers and the per-pixel output (src/tracer/tracer.cpp). */
module Tracing {
  import opened Vector3D
  import opened Rays
  import opened Intersection
  import opened Shapes
  import opened Scenes
  import Textures

  /** The floating-point library functions the tracer calls: `sqrtf`,
      `expf`, `powf`, and the exact Fresnel reflectance for the two
      densities and the two cosines. */
  datatype Maths = Maths(
    sqrt: real -> real,
    exp: real -> real,
    pow: (real, real) -> real,
    fresnel: (real, real, real, real) -> real)

  // ---------------------------------------------------------------
  // Geometry of a hit
  // ---------------------------------------------------------------

  /** The normal turned to face the incoming ray. */
  function Orient(dir: Vec3D, normal: Vec3D): (outNormal: Vec3D)
    ensures Dot(dir, outNormal) <= 0.0
    ensures outNormal == normal || outNormal == Neg(normal)
    ensures Dot(dir, normal) <= 0.0 ==> outNormal == normal
  {
    if Dot(dir, normal) > 0.0 then
      assert Dot(dir, Neg(normal)) == -Dot(dir, normal);
      Neg(normal)
    else normal
  }

  /** The mirror direction `dir - 2 (dir . n) n`. */
  function ReflectDir(dir: Vec3D, n: Vec3D): Vec3D
  {
    Sub(dir, Mul(n, 2.0 * Dot(dir, n)))
  }

  /** Mirroring about a unit normal flips the normal component. */
  lemma ReflectFlipsNormalComponent(dir: Vec3D, n: Vec3D)
    requires Length2(n) == 1.0
    ensures Dot(ReflectDir(dir, n), n) == -Dot(dir, n)
  {
    var d := Dot(dir, n);
    calc {
      Dot(ReflectDir(dir, n), n);
      (dir.x - n.x * (2.0 * d)) * n.x + (dir.y - n.y * (2.0 * d)) * n.y + (dir.z - n.z * (2.0 * d)) * n.z;
      d - 2.0 * d * (n.x * n.x + n.y * n.y + n.z * n.z);
      -d;
    }
  }

  /** Squared cosine of the refraction angle, from Snell's law. */
  function CosThetaT2(dir: Vec3D, sourceDensity: real, targetDensity: real, outNormal: Vec3D): real
    requires targetDensity != 0.0
  {
    var nue := sourceDensity / targetDensity;
    var cosThetaS := -Dot(outNormal, dir);
    1.0 - nue * nue * (1.0 - cosThetaS * cosThetaS)
  }

  predicate TotalInternalReflection(dir: Vec3D, sourceDensity: real, targetDensity: real, outNormal: Vec3D)
    requires targetDensity != 0.0
  {
    CosThetaT2(dir, sourceDensity, targetDensity, outNormal) < 0.0
  }

  /** Going into a medium at least as dense never reflects totally. */
  lemma NoTotalReflectionIntoDenser(dir: Vec3D, sourceDensity: real, targetDensity: real, outNormal: Vec3D)
    requires 0.0 <= sourceDensity <= targetDensity && targetDensity != 0.0
    requires Dot(outNormal, dir) * Dot(outNormal, dir) <= 1.0
    ensures !TotalInternalReflection(dir, sourceDensity, targetDensity, outNormal)
  {
    var nue := sourceDensity / targetDensity;
    var c := -Dot(outNormal, dir);
    var s := 1.0 - c * c;
    assert nue * targetDensity == sourceDensity;
    assert 0.0 <= nue <= 1.0;
    assert 0.0 <= s <= 1.0;
    assert nue * nue <= 1.0;
    ScaleDown(nue * nue, s);
    assert CosThetaT2(dir, sourceDensity, targetDensity, outNormal) == 1.0 - nue * nue * s;
  }

  /** Scaling a non-negative value by a factor in [0, 1] does not make it
      larger. */
  lemma ScaleDown(a: real, s: real)
    requires 0.0 <= a <= 1.0 && 0.0 <= s
    ensures a * s <= s
  {
    assert s - a * s == (1.0 - a) * s;
  }

  /** `GRefractRay`: the refracted direction, or the zero vector with the
      flag raised on total internal reflection; the flag is never
      lowered. */
  function RefractRay(dir: Vec3D, sourceDensity: real, targetDensity: real, outNormal: Vec3D,
                      tirIn: bool, p: Precision, maths: Maths): (res: (Vec3D, bool))
    requires targetDensity != 0.0
    ensures res.1 == (tirIn || TotalInternalReflection(dir, sourceDensity, targetDensity, outNormal))
    ensures TotalInternalReflection(dir, sourceDensity, targetDensity, outNormal) ==> res.0 == Zero()
  {
    var nue := sourceDensity / targetDensity;
    var cosThetaS := -Dot(outNormal, dir);
    var cosThetaT2 := CosThetaT2(dir, sourceDensity, targetDensity, outNormal);
    if cosThetaT2 < 0.0 then (Zero(), true)
    else (Normalized(Add(Mul(dir, nue), Mul(outNormal, nue * cosThetaS - maths.sqrt(cosThetaT2))), p.floatZero, maths.sqrt),
          tirIn)
  }

  /** `GGetFresnelFactor`: zero with the flag raised on total internal
      reflection, otherwise the exact reflectance. */
  function FresnelFactor(dir: Vec3D, sourceDensity: real, targetDensity: real, outNormal: Vec3D,
                         tirIn: bool, maths: Maths): (res: (real, bool))
    requires targetDensity != 0.0
    ensures res.1 == (tirIn || TotalInternalReflection(dir, sourceDensity, targetDensity, outNormal))
    ensures TotalInternalReflection(dir, sourceDensity, targetDensity, outNormal) ==> res.0 == 0.0
  {
    var cosThetaS := -Dot(outNormal, dir);
    var cosThetaT2 := CosThetaT2(dir, sourceDensity, targetDensity, outNormal);
    if cosThetaT2 < 0.0 then (0.0, true)
    else (maths.fresnel(sourceDensity, targetDensity, cosThetaS, maths.sqrt(cosThetaT2)), tirIn)
  }

  /** Starting from a lowered flag, the flag `compute` tests before
      refracting is exactly the total-internal-reflection condition. */
  lemma RefractionFlagIsCondition(dir: Vec3D, sourceDensity: real, targetDensity: real, outNormal: Vec3D,
                                  p: Precision, maths: Maths)
    requires targetDensity != 0.0
    ensures var afterFresnel := FresnelFactor(dir, sourceDensity, targetDensity, outNormal, false, maths).1;
            RefractRay(dir, sourceDensity, targetDensity, outNormal, afterFresnel, p, maths).1 ==
            TotalInternalReflection(dir, sourceDensity, targetDensity, outNormal)
  {
  }

  // ---------------------------------------------------------------
  // The recursive colour
  // ---------------------------------------------------------------

  /** Every hit the scene's objects can report names an object that has a
      material with a non-zero density (`compute` dereferences both and
      divides by the density). */
  ghost predicate Resolvable(view: SceneView, world: nat -> Shape)
  {
    forall i, r :: 0 <= i < |view.objects| && view.objects[i].intersect(r).found ==>
      HitResolves(world, view.objects[i].intersect(r))
  }

  predicate HitResolves(world: nat -> Shape, h: CIsect)
  {
    h.obj.Ref? && world(h.obj.id).mtrl.Some? && world(h.obj.id).mtrl.value.density != 0.0
  }

  function HitMtrl(world: nat -> Shape, h: CIsect): Mtrl
    requires HitResolves(world, h)
  {
    world(h.obj.id).mtrl.value
  }

  /** What `compute` needs of the scene: tracer properties, resolvable
      hits, and a background once a ray at depth zero can miss. */
  ghost predicate CanCompute(view: SceneView, world: nat -> Shape, depth: int)
  {
    view.tracerProperties.Some? && Resolvable(view, world) && (depth <= 0 ==> view.background.Some?)
  }

  function MaxDepth(view: SceneView): int
    requires view.tracerProperties.Some?
  {
    view.tracerProperties.value.maxRayRecursionDepth
  }

  /** The depth ceiling is on (non-negative maximum) and exceeded. */
  predicate Ceiling(view: SceneView, depth: int)
    requires view.tracerProperties.Some?
  {
    MaxDepth(view) >= 0 && depth > MaxDepth(view)
  }

  /** With a negative maximum the C++ recursion has no ceiling; the model
      bounds it by `fuel` instead. */
  predicate OutOfFuel(view: SceneView, fuel: nat)
    requires view.tracerProperties.Some?
  {
    MaxDepth(view) < 0 && fuel == 0
  }

  function Budget(view: SceneView, depth: int, fuel: nat): nat
    requires view.tracerProperties.Some?
  {
    if MaxDepth(view) >= 0 then (if depth <= MaxDepth(view) then MaxDepth(view) - depth + 1 else 0)
    else fuel
  }

  function Less(fuel: nat): nat { if fuel == 0 then 0 else fuel - 1 }

  /** The closest hit `compute` asks the scene for. */
  function PrimaryHit(view: SceneView, ray: Ray): CIsect
  {
    SceneHit(HitsOf(view.objects, ray), view.tracerDepth, false)
  }

  lemma PrimaryHitResolves(view: SceneView, world: nat -> Shape, ray: Ray)
    requires Resolvable(view, world)
    ensures PrimaryHit(view, ray).found ==> HitResolves(world, PrimaryHit(view, ray))
  {
    var hits := HitsOf(view.objects, ray);
    NearestAcceptedIsClosest(hits, view.tracerDepth);
    if PrimaryHit(view, ray).found {
      assert !NoneAccepted(hits, view.tracerDepth);
      var k :| 0 <= k < |hits| && PrimaryHit(view, ray) == hits[k] && IsClosest(hits, view.tracerDepth, k);
      assert view.objects[k].intersect(ray).found;
    }
  }

  /** A reflected ray is traced when the material reflects and the ray
      still carries more than `EPSILON` of intensity. */
  predicate ReflectionRecurses(m: Mtrl, intensity: real, p: Precision)
  {
    m.reflection > 0.0 && intensity > p.epsilon
  }

  /** A secondary ray leaves the hit point nudged `EPSILON` along its
      direction. */
  function SecondaryRay(point: Vec3D, direction: Vec3D, p: Precision, maths: Maths): Ray
  {
    MakeRay(Add(point, Mul(direction, p.epsilon)), direction, p, maths.sqrt)
  }

  /** The mirrored ray at a hit. */
  function ReflectedRay(ray: Ray, hit: CIsect, p: Precision, maths: Maths): Ray
  {
    SecondaryRay(Apply(ray, hit.distance), ReflectDir(ray.dir, Orient(ray.dir, hit.normal)), p, maths)
  }

  /** The Fresnel factor at a hit, with the flag it leaves behind. */
  function HitFresnel(ray: Ray, hit: CIsect, density: real, m: Mtrl, maths: Maths): (real, bool)
    requires m.density != 0.0
  {
    FresnelFactor(ray.dir, density, m.density, Orient(ray.dir, hit.normal), false, maths)
  }

  /** The refracted direction at a hit, with the flag after refracting. */
  function HitRefraction(ray: Ray, hit: CIsect, density: real, m: Mtrl, p: Precision, maths: Maths): (Vec3D, bool)
    requires m.density != 0.0
  {
    RefractRay(ray.dir, density, m.density, Orient(ray.dir, hit.normal), HitFresnel(ray, hit, density, m, maths).1, p, maths)
  }

  function TransmittedRay(ray: Ray, hit: CIsect, density: real, m: Mtrl, p: Precision, maths: Maths): Ray
    requires m.density != 0.0
  {
    SecondaryRay(Apply(ray, hit.distance), HitRefraction(ray, hit, density, m, p, maths).0, p, maths)
  }

  /** Beer's law: the transmission factor after `distance` through a
      medium of the given diffuse colour. */
  function Transparency(difColor: Vec3D, distance: real, maths: Maths): Vec3D
  {
    var absorbance := Mul(Mul(difColor, 0.15), -distance);
    Vec3D(maths.exp(absorbance.x), maths.exp(absorbance.y), maths.exp(absorbance.z))
  }

  /** The record `compute` leaves in `*out`: untouched beyond the ceiling,
      otherwise the scene's closest hit. */
  function OutRecord(view: SceneView, ray: Ray, depth: int, fuel: nat, out0: CIsect): CIsect
    requires view.tracerProperties.Some?
  {
    if Ceiling(view, depth) || OutOfFuel(view, fuel) then out0 else PrimaryHit(view, ray)
  }

  /** The colour a light source shows when seen directly. */
  function Glow(m: Mtrl): Vec3D
  {
    Add(Add(m.ambColor, m.difColor), m.spcColor)
  }

  /** A refracted ray is traced when the material refracts and there is
      no total internal reflection at the hit. */
  predicate Transmits(ray: Ray, hit: CIsect, density: real, m: Mtrl, p: Precision, maths: Maths)
    requires m.density != 0.0
  {
    m.refraction > 0.0 && !HitRefraction(ray, hit, density, m, p, maths).1
  }

  /** A refracted ray is traced exactly when the material refracts and
      the ray is not totally reflected. */
  lemma TransmitsIffNoTotalReflection(ray: Ray, hit: CIsect, density: real, m: Mtrl, p: Precision, maths: Maths)
    requires m.density != 0.0
    ensures Transmits(ray, hit, density, m, p, maths) <==>
            m.refraction > 0.0 && !TotalInternalReflection(ray.dir, density, m.density, Orient(ray.dir, hit.normal))
  {
    RefractionFlagIsCondition(ray.dir, density, m.density, Orient(ray.dir, hit.normal), p, maths);
  }

  /** What the hit decides for the secondary rays: the material, the
      Fresnel factor, and whether and along which ray the reflected and
      the refracted colours are traced. */
  datatype Bounce = Bounce(m: Mtrl, fresnel: real, reflects: bool, mirrorRay: Ray, mirrorIntensity: real,
                          transmits: bool, transmitRay: Ray)

  /** The intensity a mirrored ray carries on. */
  function Attenuated(intensity: real, m: Mtrl): real
  {
    intensity * m.reflection
  }

  function BounceAt(world: nat -> Shape, ray: Ray, hit: CIsect, intensity: real, density: real,
                    p: Precision, maths: Maths): (b: Bounce)
    requires HitResolves(world, hit)
    ensures b.m == HitMtrl(world, hit)
    ensures b.reflects == ReflectionRecurses(b.m, intensity, p)
    ensures b.transmits == Transmits(ray, hit, density, b.m, p, maths)
  {
    var m := HitMtrl(world, hit);
    Bounce(m, HitFresnel(ray, hit, density, m, maths).0, ReflectionRecurses(m, intensity, p), ReflectedRay(ray, hit, p, maths),
           Attenuated(intensity, m), Transmits(ray, hit, density, m, p, maths), TransmittedRay(ray, hit, density, m, p, maths))
  }

  /** The reflected term: the mirrored ray's colour `c`, weighted by the
      intensity, the reflectivity and the Fresnel factor and tinted by the
      diffuse colour. */
  function ReflectedTerm(b: Bounce, intensity: real, c: Vec3D): Vec3D
  {
    if b.reflects then Scale3D(Mul(Mul(Mul(c, intensity), b.m.reflection), b.fresnel), b.m.difColor)
    else Zero()
  }

  /** The share of light the Fresnel factor does not reflect. */
  function Transmittance(fresnel: real): real
  {
    1.0 - fresnel
  }

  /** The refracted term: the transmitted ray's colour `c`, attenuated by
      Beer's law over the distance to its hit `inner`, and by the part the
      Fresnel factor reflects; nothing when the ray hits nothing. */
  function RefractedTerm(b: Bounce, inner: CIsect, c: Vec3D, maths: Maths): Vec3D
  {
    if b.transmits && inner.found then
      Mul(Scale3D(c, Transparency(b.m.difColor, inner.distance, maths)), Transmittance(b.fresnel))
    else Zero()
  }

  /** Direct light, plus the reflected and the refracted terms. */
  function Shaded(view: SceneView, ray: Ray, hit: CIsect, b: Bounce, intensity: real,
                  mirrored: Vec3D, transmitted: Vec3D, inner: CIsect, maths: Maths): Vec3D
  {
    Add(Add(LightSum(view.lights, hit.obj, ray, hit.distance, hit.normal), ReflectedTerm(b, intensity, mirrored)),
        RefractedTerm(b, inner, transmitted, maths))
  }

  /** The colour `compute` returns for a ray at a recursion depth, with the
      intensity still carried and the density of the medium it travels
      in. Past the depth ceiling, and for a secondary ray that misses, it
      is black; a primary ray that misses sees the background's ambient
      colour. */
  function Radiance(view: SceneView, world: nat -> Shape, ray: Ray, depth: int, intensity: real,
                    density: real, p: Precision, maths: Maths, fuel: nat): (color: Vec3D)
    requires CanCompute(view, world, depth)
    ensures Ceiling(view, depth) ==> color == Zero()
    ensures depth != 0 && !PrimaryHit(view, ray).found ==> color == Zero()
    ensures depth == 0 && !Ceiling(view, depth) && !OutOfFuel(view, fuel) && !PrimaryHit(view, ray).found ==>
              view.background.Some? && color == view.background.value.ambColor
    decreases Budget(view, depth, fuel)
  {
    if Ceiling(view, depth) || OutOfFuel(view, fuel) then Zero()
    else
      var hit := PrimaryHit(view, ray);
      if !hit.found then (if depth != 0 then Zero() else view.background.value.ambColor)
      else
        PrimaryHitResolves(view, world, ray);
        if world(hit.obj.id).light then (if depth != 0 then Zero() else Glow(HitMtrl(world, hit)))
        else
          var b := BounceAt(world, ray, hit, intensity, density, p, maths);
          var mirrored := if b.reflects then Radiance(view, world, b.mirrorRay, depth + 1, b.mirrorIntensity,
                                                      b.m.density, p, maths, Less(fuel))
                          else Zero();
          var transmitted := if b.transmits then Radiance(view, world, b.transmitRay, depth + 1, intensity,
                                                          b.m.density, p, maths, Less(fuel))
                             else Zero();
          var inner := if b.transmits then OutRecord(view, b.transmitRay, depth + 1, Less(fuel), Absent()) else Absent();
          Shaded(view, ray, hit, b, intensity, mirrored, transmitted, inner, maths)
  }

  /** A hit on a light source before the ceiling: a secondary ray sees
      black, a primary ray the sum of the light's ambient, diffuse and
      specular colours. */
  lemma LightPolicy(view: SceneView, world: nat -> Shape, ray: Ray, depth: int, intensity: real,
                    density: real, p: Precision, maths: Maths, fuel: nat)
    requires CanCompute(view, world, depth) && !Ceiling(view, depth) && !OutOfFuel(view, fuel)
    requires PrimaryHit(view, ray).found && HitResolves(world, PrimaryHit(view, ray))
    requires world(PrimaryHit(view, ray).obj.id).light
    ensures Radiance(view, world, ray, depth, intensity, density, p, maths, fuel) ==
            if depth != 0 then Zero() else Glow(HitMtrl(world, PrimaryHit(view, ray)))
  {
  }

  /** What a lit surface contributes before the depth ceiling. */
  ghost predicate Shading(view: SceneView, world: nat -> Shape, hit: CIsect, depth: int, fuel: nat)
  {
    CanCompute(view, world, depth) && !Ceiling(view, depth) && !OutOfFuel(view, fuel) &&
    hit.found && HitResolves(world, hit)
  }

  // ---------------------------------------------------------------
  // Output of a pixel
  // ---------------------------------------------------------------

  /** `saturateColor`: each component capped at one. */
  function Saturate(c: Vec3D): (s: Vec3D)
    ensures s.x <= 1.0 && s.y <= 1.0 && s.z <= 1.0
    ensures (c.x <= 1.0 ==> s.x == c.x) && (c.y <= 1.0 ==> s.y == c.y) && (c.z <= 1.0 ==> s.z == c.z)
  {
    Vec3D(Min(c.x, 1.0), Min(c.y, 1.0), Min(c.z, 1.0))
  }

  /** `postprocessColor`: exposure `1 - exp(c * factor)` per component,
      so with a positive exponential every channel stays below one. */
  function Expose(c: Vec3D, exposureFactor: real, maths: Maths): (e: Vec3D)
    ensures (forall t :: maths.exp(t) > 0.0) ==> e.x < 1.0 && e.y < 1.0 && e.z < 1.0
    ensures maths.exp(0.0) == 1.0 && exposureFactor == 0.0 ==> e == Zero()
  {
    Vec3D(1.0 - maths.exp(c.x * exposureFactor), 1.0 - maths.exp(c.y * exposureFactor),
          1.0 - maths.exp(c.z * exposureFactor))
  }

  /** `gammaCorrection`: the sRGB transfer curve, linear with slope
      12.92 below 0.0031308, so it brightens the darkest values and keeps
      them below 0.0405. */
  function Gamma(c: real, maths: Maths): (g: real)
    ensures c < 0.0031308 ==> g == 12.92 * c
    ensures 0.0 <= c < 0.0031308 ==> c <= g < 0.0405
  {
    if c < 0.0031308 then 12.92 * c else 1.055 * maths.pow(c, 0.4166667) - 0.055
  }

  /** The three channel values `render` converts, from the pixel colour
      and the camera's exposure and gamma switches. */
  function ToneMap(pixel: Vec3D, cam: CameraProperties, exposureFactor: real, maths: Maths): (c: Vec3D)
    ensures !cam.useGammaCorrection && !cam.useExposure ==> c == Saturate(pixel) && c.x <= 1.0 && c.y <= 1.0 && c.z <= 1.0
    ensures !cam.useGammaCorrection && cam.useExposure ==> c == Expose(pixel, exposureFactor, maths)
  {
    var c := if cam.useExposure then Expose(pixel, exposureFactor, maths) else Saturate(pixel);
    if cam.useGammaCorrection then Vec3D(Gamma(c.x, maths), Gamma(c.y, maths), Gamma(c.z, maths)) else c
  }

  const UnsignedLimit: int := 0x1_0000_0000

  /** Converting `f * 255` to `unsigned` is defined only when its
      truncation is representable. */
  predicate ChannelDefined(f: real)
  {
    f * 255.0 > -1.0 && Textures.Trunc(f * 255.0) < UnsignedLimit
  }

  /** `static_cast<unsigned char>(std::min<unsigned>(f * 255, 255))`. */
  function ChannelByte(f: real): (b: int)
    requires ChannelDefined(f)
    ensures 0 <= b <= 255
    ensures f >= 1.0 ==> b == 255
    ensures 0.0 <= f < 1.0 ==> b as real <= f * 255.0 < b as real + 1.0
  {
    var t := Textures.Trunc(f * 255.0);
    if t < 255 then t else 255
  }

  /** `RGBA(r, g, b, a)`: four bytes packed into a 32-bit word, alpha in
      the top byte. */
  function Pack(r: int, g: int, b: int, a: int): (w: int)
    requires 0 <= r < 256 && 0 <= g < 256 && 0 <= b < 256 && 0 <= a < 256
    ensures 0 <= w < UnsignedLimit
  {
    a * 0x100_0000 + r * 0x1_0000 + g * 0x100 + b
  }

  /** The packed word gives its four bytes back. */
  lemma PackUnpack(r: int, g: int, b: int, a: int)
    requires 0 <= r < 256 && 0 <= g < 256 && 0 <= b < 256 && 0 <= a < 256
    ensures Pack(r, g, b, a) / 0x100_0000 == a
    ensures Pack(r, g, b, a) / 0x1_0000 % 0x100 == r
    ensures Pack(r, g, b, a) / 0x100 % 0x100 == g
    ensures Pack(r, g, b, a) % 0x100 == b
  {
    var w := Pack(r, g, b, a);
    Textures.DivModUnique(w, 0x100_0000, a, r * 0x1_0000 + g * 0x100 + b);
    Textures.DivModUnique(w, 0x1_0000, a * 0x100 + r, g * 0x100 + b);
    Textures.DivModUnique(a * 0x100 + r, 0x100, a, r);
    Textures.DivModUnique(w, 0x100, a * 0x1_0000 + r * 0x100 + g, b);
    Textures.DivModUnique(a * 0x1_0000 + r * 0x100 + g, 0x100, a * 0x100 + r, g);
  }

  /** The colour of the primary ray through pixel (x, y): depth 0, full
      intensity, starting in air. */
  function PixelColor(view: SceneView, world: nat -> Shape, x: int, y: int, p: Precision, maths: Maths, fuel: nat): Vec3D
    requires view.camera.Some? && CanCompute(view, world, 0)
  {
    Radiance(view, world, view.camera.value.LookThrough(x, y), 0, 1.0, AirMaterial().refraction, p, maths, fuel)
  }

  predicate PixelDefined(view: SceneView, world: nat -> Shape, x: int, y: int, exposureFactor: real,
                         p: Precision, maths: Maths, fuel: nat)
    requires view.camera.Some? && CanCompute(view, world, 0)
  {
    var c := ToneMap(PixelColor(view, world, x, y, p, maths, fuel), view.camera.value.props, exposureFactor, maths);
    ChannelDefined(c.x) && ChannelDefined(c.y) && ChannelDefined(c.z)
  }

  /** The word `render` stores for pixel (x, y). */
  function PixelWord(view: SceneView, world: nat -> Shape, x: int, y: int, exposureFactor: real,
                     p: Precision, maths: Maths, fuel: nat): (w: int)
    requires view.camera.Some? && CanCompute(view, world, 0)
    requires PixelDefined(view, world, x, y, exposureFactor, p, maths, fuel)
    ensures 0 <= w < UnsignedLimit && w / 0x100_0000 == 0xFF
  {
    var c := ToneMap(PixelColor(view, world, x, y, p, maths, fuel), view.camera.value.props, exposureFactor, maths);
    var r, g, b := ChannelByte(c.x), ChannelByte(c.y), ChannelByte(c.z);
    PackUnpack(r, g, b, 255);
    Pack(r, g, b, 255)
  }
}

/** The tracer object and the facts about the colour computation it
    follows. */
module Tracers {
  import opened Vector3D
  import opened Rays
  import opened Intersection
  import opened Shapes
  import opened Scenes
  import opened Tracing
  import Textures

  /** With the ceiling on, the fuel bound plays no part: the result is the
      C++ result. */
  lemma {:induction false} RadianceIgnoresFuel(view: SceneView, world: nat -> Shape, ray: Ray, depth: int,
                                               intensity: real, density: real, p: Precision, maths: Maths,
                                               fuel1: nat, fuel2: nat)
    requires CanCompute(view, world, depth) && MaxDepth(view) >= 0
    ensures Radiance(view, world, ray, depth, intensity, density, p, maths, fuel1) ==
            Radiance(view, world, ray, depth, intensity, density, p, maths, fuel2)
    decreases MaxDepth(view) - depth, 1
  {
    if !Ceiling(view, depth) {
      var hit := PrimaryHit(view, ray);
      PrimaryHitResolves(view, world, ray);
      if hit.found && !world(hit.obj.id).light {
        SecondaryIgnoreFuel(view, world, ray, depth, intensity, density, p, maths, fuel1, fuel2);
      } else {
        BareIgnoresFuel(view, world, ray, depth, intensity, density, p, maths, fuel1, fuel2);
      }
    }
  }

  /** The inductive step of `RadianceIgnoresFuel`: the secondary rays of
      a lit surface do not depend on the fuel, so neither does the
      surface. */
  lemma {:induction false} SecondaryIgnoreFuel(view: SceneView, world: nat -> Shape, ray: Ray, depth: int,
                                               intensity: real, density: real, p: Precision, maths: Maths,
                                               fuel1: nat, fuel2: nat)
    requires CanCompute(view, world, depth) && MaxDepth(view) >= 0 && !Ceiling(view, depth)
    requires PrimaryHit(view, ray).found && HitResolves(world, PrimaryHit(view, ray))
    requires !world(PrimaryHit(view, ray).obj.id).light
    ensures Radiance(view, world, ray, depth, intensity, density, p, maths, fuel1) ==
            Radiance(view, world, ray, depth, intensity, density, p, maths, fuel2)
    decreases MaxDepth(view) - depth, 0
  {
    assert CanCompute(view, world, depth + 1);
    var b := BounceAt(world, ray, PrimaryHit(view, ray), intensity, density, p, maths);
    RadianceIgnoresFuel(view, world, b.mirrorRay, depth + 1, b.mirrorIntensity, b.m.density, p, maths,
                        Less(fuel1), Less(fuel2));
    RadianceIgnoresFuel(view, world, b.transmitRay, depth + 1, intensity, b.m.density, p, maths,
                        Less(fuel1), Less(fuel2));
    SurfaceIgnoresFuel(view, world, ray, depth, intensity, density, p, maths, fuel1, fuel2);
  }

  /** The base cases of `RadianceIgnoresFuel`: a miss and a light source
      before the ceiling do not recurse. */
  lemma BareIgnoresFuel(view: SceneView, world: nat -> Shape, ray: Ray, depth: int,
                        intensity: real, density: real, p: Precision, maths: Maths,
                        fuel1: nat, fuel2: nat)
    requires CanCompute(view, world, depth) && MaxDepth(view) >= 0 && !Ceiling(view, depth)
    requires var hit := PrimaryHit(view, ray);
             hit.found ==> HitResolves(world, hit) && world(hit.obj.id).light
    ensures Radiance(view, world, ray, depth, intensity, density, p, maths, fuel1) ==
            Radiance(view, world, ray, depth, intensity, density, p, maths, fuel2)
  {
    assert !OutOfFuel(view, fuel1) && !OutOfFuel(view, fuel2);
  }

  /** The inductive step of `RadianceIgnoresFuel` at a lit surface: when
      the mirrored and the transmitted ray do not depend on the fuel,
      neither does the surface colour. */
  lemma SurfaceIgnoresFuel(view: SceneView, world: nat -> Shape, ray: Ray, depth: int,
                           intensity: real, density: real, p: Precision, maths: Maths,
                           fuel1: nat, fuel2: nat)
    requires Shading(view, world, PrimaryHit(view, ray), depth, fuel1)
    requires MaxDepth(view) >= 0
    requires !world(PrimaryHit(view, ray).obj.id).light
    requires var b := BounceAt(world, ray, PrimaryHit(view, ray), intensity, density, p, maths);
             Radiance(view, world, b.mirrorRay, depth + 1, b.mirrorIntensity, b.m.density, p, maths, Less(fuel1)) ==
             Radiance(view, world, b.mirrorRay, depth + 1, b.mirrorIntensity, b.m.density, p, maths, Less(fuel2)) &&
             Radiance(view, world, b.transmitRay, depth + 1, intensity, b.m.density, p, maths, Less(fuel1)) ==
             Radiance(view, world, b.transmitRay, depth + 1, intensity, b.m.density, p, maths, Less(fuel2))
    ensures Radiance(view, world, ray, depth, intensity, density, p, maths, fuel1) ==
            Radiance(view, world, ray, depth, intensity, density, p, maths, fuel2)
  {
    assert Shading(view, world, PrimaryHit(view, ray), depth, fuel2);
    RadianceAtSurface(view, world, ray, depth, intensity, density, p, maths, fuel1);
    RadianceAtSurface(view, world, ray, depth, intensity, density, p, maths, fuel2);
  }

  /** The colour at a lit, non-emitting surface: the scene's direct
      light, the reflected term and the refracted term. */
  lemma RadianceAtSurface(view: SceneView, world: nat -> Shape, ray: Ray, depth: int,
                          intensity: real, density: real, p: Precision, maths: Maths, fuel: nat)
    requires Shading(view, world, PrimaryHit(view, ray), depth, fuel)
    requires !world(PrimaryHit(view, ray).obj.id).light
    ensures var hit := PrimaryHit(view, ray);
            var b := BounceAt(world, ray, hit, intensity, density, p, maths);
            Radiance(view, world, ray, depth, intensity, density, p, maths, fuel) ==
            Shaded(view, ray, hit, b, intensity,
                   if b.reflects then Radiance(view, world, b.mirrorRay, depth + 1, b.mirrorIntensity,
                                               b.m.density, p, maths, Less(fuel))
                   else Zero(),
                   if b.transmits then Radiance(view, world, b.transmitRay, depth + 1, intensity,
                                                b.m.density, p, maths, Less(fuel))
                   else Zero(),
                   if b.transmits then OutRecord(view, b.transmitRay, depth + 1, Less(fuel), Absent()) else Absent(),
                   maths)
  {
  }

  /** A material that neither reflects a ray that still has intensity nor
      refracts contributes only the direct light of the scene's lights. */
  lemma NoRecursionIsDirectLight(view: SceneView, world: nat -> Shape, ray: Ray, depth: int,
                                 intensity: real, density: real, p: Precision, maths: Maths, fuel: nat)
    requires Shading(view, world, PrimaryHit(view, ray), depth, fuel)
    requires !world(PrimaryHit(view, ray).obj.id).light
    requires var m := HitMtrl(world, PrimaryHit(view, ray));
             !ReflectionRecurses(m, intensity, p) && m.refraction <= 0.0
    ensures var hit := PrimaryHit(view, ray);
            Radiance(view, world, ray, depth, intensity, density, p, maths, fuel) ==
            LightSum(view.lights, hit.obj, ray, hit.distance, hit.normal)
  {
    RadianceAtSurface(view, world, ray, depth, intensity, density, p, maths, fuel);
    var hit := PrimaryHit(view, ray);
    var direct := LightSum(view.lights, hit.obj, ray, hit.distance, hit.normal);
    AddZero(direct);
    AddZero(Add(direct, Zero()));
  }

  class Tracer {
    var currentExposureFactor: real

    constructor ()
      ensures currentExposureFactor == -1.0
    {
      currentExposureFactor := -1.0;
    }

    /** `Tracer::compute`: the colour along `ray`, and the record left in
        `*out` (`out0` is what the caller's record held before), which is
        the scene's closest accepted hit whenever the ray is traced. */
    method Compute(scene: Scene, world: nat -> Shape, ray: Ray, depth: int, intensity: real,
                   density: real, p: Precision, maths: Maths, fuel: nat, out0: CIsect)
      returns (color: Vec3D, out: CIsect)
      requires CanCompute(scene.View(), world, depth)
      ensures color == Radiance(scene.View(), world, ray, depth, intensity, density, p, maths, fuel)
      ensures out == OutRecord(scene.View(), ray, depth, fuel, out0)
      ensures !Ceiling(scene.View(), depth) && !OutOfFuel(scene.View(), fuel) ==>
                ClosestResult(HitsOf(scene.objects, ray), scene.tracerDepth, false, out)
      decreases Budget(scene.View(), depth, fuel), 1
    {
      ghost var view := scene.View();
      var maxDepth := scene.tracerProperties.value.maxRayRecursionDepth;
      if maxDepth >= 0 && depth > maxDepth {
        return Zero(), out0;
      }
      if maxDepth < 0 && fuel == 0 {
        return Zero(), out0;
      }
      var reflected := depth != 0;
      var resultColor := Zero();
      var intersection := scene.Intersect(ray, false);
      ClosestResultIsSceneHit(HitsOf(scene.objects, ray), scene.tracerDepth, false, intersection);
      out := intersection;
      if !intersection.found {
        if reflected {
          return resultColor, out;
        }
        return scene.background.value.ambColor, out;
      }
      PrimaryHitResolves(view, world, ray);
      var objectMtrl := world(intersection.obj.id).mtrl.value;
      if world(intersection.obj.id).light {
        if reflected {
          return resultColor, out;
        }
        return Add(Add(objectMtrl.ambColor, objectMtrl.difColor), objectMtrl.spcColor), out;
      }
      color := Shade(scene, world, ray, intersection, depth, intensity, density, p, maths, fuel);
    }

    /** The rest of `compute` for a hit on an object that is not a light:
        direct light, then the reflected and the refracted rays. */
    method Shade(scene: Scene, world: nat -> Shape, ray: Ray, intersection: CIsect, depth: int, intensity: real,
                 density: real, p: Precision, maths: Maths, fuel: nat)
      returns (color: Vec3D)
      requires intersection == PrimaryHit(scene.View(), ray) && Shading(scene.View(), world, intersection, depth, fuel)
      requires !world(intersection.obj.id).light
      ensures color == Radiance(scene.View(), world, ray, depth, intensity, density, p, maths, fuel)
      decreases Budget(scene.View(), depth, fuel), 0
    {
      ghost var view := scene.View();
      assert Budget(view, depth + 1, Less(fuel)) < Budget(view, depth, fuel);
      assert CanCompute(view, world, depth + 1);
      var resultColor := Zero();
      var objectMtrl := world(intersection.obj.id).mtrl.value;
      var isectPoint := Apply(ray, intersection.distance);
      var normal := intersection.normal;
      var lit := scene.Illuminate(ray, intersection.obj, intersection.distance, normal);
      resultColor := Add(resultColor, lit);
      ghost var direct := resultColor;
      var rayDir := ray.dir;
      var outNormal := normal;
      if Dot(rayDir, normal) > 0.0 {
        outNormal := Neg(normal);
      }
      ghost var b := BounceAt(world, ray, intersection, intensity, density, p, maths);
      assert outNormal == Orient(rayDir, normal);
      var isTotalInternalReflection := false;
      var fr := FresnelFactor(rayDir, density, objectMtrl.density, outNormal, isTotalInternalReflection, maths);
      var fresnel := fr.0;
      isTotalInternalReflection := fr.1;
      assert b.m == objectMtrl && b.fresnel == fresnel;
      ghost var mirrored := Zero();
      if objectMtrl.reflection > 0.0 && intensity > p.epsilon {
        var direction := ReflectDir(rayDir, outNormal);
        var c, reflectedIsect := Compute(scene, world, SecondaryRay(isectPoint, direction, p, maths), depth + 1,
                                         Attenuated(intensity, objectMtrl), objectMtrl.density, p, maths,
                                         Less(fuel), Absent());
        mirrored := c;
        var reflectedColor := Mul(Mul(Mul(c, intensity), objectMtrl.reflection), fresnel);
        resultColor := Add(resultColor, Scale3D(reflectedColor, objectMtrl.difColor));
      } else {
        AddZero(resultColor);
      }
      assert resultColor == Add(direct, ReflectedTerm(b, intensity, mirrored));
      ghost var beforeRefraction := resultColor;
      ghost var transmitted, inner := Zero(), Absent();
      if objectMtrl.refraction > 0.0 {
        var direction := RefractRay(rayDir, density, objectMtrl.density, outNormal, isTotalInternalReflection, p, maths);
        isTotalInternalReflection := direction.1;
        assert isTotalInternalReflection == !b.transmits;
        if !isTotalInternalReflection {
          var refracted, refractedIsect := Compute(scene, world, SecondaryRay(isectPoint, direction.0, p, maths),
                                                   depth + 1, intensity, objectMtrl.density, p, maths, Less(fuel), Absent());
          transmitted, inner := refracted, refractedIsect;
          if refractedIsect.found {
            var transparency := Transparency(objectMtrl.difColor, refractedIsect.distance, maths);
            resultColor := Add(resultColor, Mul(Scale3D(refracted, transparency), Transmittance(fresnel)));
          } else {
            AddZero(resultColor);
          }
        } else {
          AddZero(resultColor);
        }
      } else {
        AddZero(resultColor);
      }
      assert resultColor == Add(beforeRefraction, RefractedTerm(b, inner, transmitted, maths));
      RadianceAtSurface(view, world, ray, depth, intensity, density, p, maths, fuel);
      AddZero(lit);
      color := resultColor;
    }

    /** `render`: every pixel (x, y) of the image plane gets, at word
        y * W + x, the packed colour of the primary ray through it, with
        alpha 0xFF; the rest of the buffer is untouched. */
    method Render(scene: Scene, world: nat -> Shape, image: array<int>, p: Precision, maths: Maths, fuel: nat)
      requires scene.camera.Some? && CanCompute(scene.View(), world, 0)
      requires scene.imagePlaneW >= 0 && scene.imagePlaneH >= 0
      requires image.Length >= scene.imagePlaneW * scene.imagePlaneH
      requires forall x, y :: 0 <= x < scene.imagePlaneW && 0 <= y < scene.imagePlaneH ==>
                 PixelDefined(scene.View(), world, x, y, currentExposureFactor, p, maths, fuel)
      modifies image
      ensures forall x, y :: 0 <= x < scene.imagePlaneW && 0 <= y < scene.imagePlaneH ==>
                image[PixelIndex(x, y, scene.imagePlaneW, scene.imagePlaneH)] ==
                PixelWord(scene.View(), world, x, y, currentExposureFactor, p, maths, fuel)
      ensures forall i :: scene.imagePlaneW * scene.imagePlaneH <= i < image.Length ==> image[i] == old(image[i])
    {
      var w, h := scene.imagePlaneW, scene.imagePlaneH;
      ghost var view := scene.View();
      var airRefraction := AirMaterial().refraction;
      var camera := scene.camera.value;
      var y := 0;
      while y < h
        invariant 0 <= y <= h
        invariant Rendered(image[..], view, world, w, y * w, currentExposureFactor, p, maths, fuel)
        invariant forall i :: y * w <= i < image.Length ==> image[i] == old(image[i])
      {
        var x := 0;
        while x < w
          invariant 0 <= x <= w
          invariant Rendered(image[..], view, world, w, y * w + x, currentExposureFactor, p, maths, fuel)
          invariant forall i :: y * w + x <= i < image.Length ==> image[i] == old(image[i])
        {
          var ray := camera.LookThrough(x, y);
          var pixel, _ := Compute(scene, world, ray, 0, 1.0, airRefraction, p, maths, fuel, Absent());
          assert pixel == PixelColor(view, world, x, y, p, maths, fuel);
          assert PixelDefined(view, world, x, y, currentExposureFactor, p, maths, fuel);
          var c := ToneMap(pixel, camera.props, currentExposureFactor, maths);
          var red, green, blue := ChannelByte(c.x), ChannelByte(c.y), ChannelByte(c.z);
          var index := PixelIndex(x, y, w, h);
          ghost var before := image[..];
          image[index] := Pack(red, green, blue, 255);
          RenderedStep(before, image[..], view, world, w, h, x, y, currentExposureFactor, p, maths, fuel);
          x := x + 1;
        }
        Textures.Distributes(y, 1, w);
        y := y + 1;
      }
      forall x, y | 0 <= x < w && 0 <= y < h
        ensures image[PixelIndex(x, y, w, h)] == PixelWord(view, world, x, y, currentExposureFactor, p, maths, fuel)
      {
        RenderedAt(image[..], view, world, w, h, x, y, currentExposureFactor, p, maths, fuel);
      }
    }
  }

  /** The word index `render` writes pixel (x, y) to. */
  function PixelIndex(x: int, y: int, w: int, h: int): (i: int)
    requires 0 <= x < w && 0 <= y < h
    ensures 0 <= i < w * h
    ensures i % w == x && i / w == y
  {
    Textures.RowMajorBound(x, y, w, h);
    y * w + x
  }

  /** The first `n` words of the buffer hold the packed colours of the
      pixels they stand for in row-major order. */
  ghost predicate Rendered(image: seq<int>, view: SceneView, world: nat -> Shape, w: int, n: int,
                           exposureFactor: real, p: Precision, maths: Maths, fuel: nat)
  {
    w > 0 ==> (0 <= n <= |image| && view.camera.Some? && CanCompute(view, world, 0) &&
      forall i :: 0 <= i < n ==>
        PixelDefined(view, world, i % w, i / w, exposureFactor, p, maths, fuel) &&
        image[i] == PixelWord(view, world, i % w, i / w, exposureFactor, p, maths, fuel))
  }

  /** Writing pixel (x, y) at its index extends the rendered prefix. */
  lemma RenderedStep(before: seq<int>, after: seq<int>, view: SceneView, world: nat -> Shape, w: int, h: int,
                     x: int, y: int, exposureFactor: real, p: Precision, maths: Maths, fuel: nat)
    requires 0 <= x < w && 0 <= y < h && PixelIndex(x, y, w, h) < |before| && |after| == |before|
    requires view.camera.Some? && CanCompute(view, world, 0)
    requires Rendered(before, view, world, w, PixelIndex(x, y, w, h), exposureFactor, p, maths, fuel)
    requires PixelDefined(view, world, x, y, exposureFactor, p, maths, fuel)
    requires after == before[PixelIndex(x, y, w, h) := PixelWord(view, world, x, y, exposureFactor, p, maths, fuel)]
    ensures Rendered(after, view, world, w, PixelIndex(x, y, w, h) + 1, exposureFactor, p, maths, fuel)
  {
  }

  /** Once every row is rendered, each pixel's word is at its index. */
  lemma RenderedAt(image: seq<int>, view: SceneView, world: nat -> Shape, w: int, h: int,
                   x: int, y: int, exposureFactor: real, p: Precision, maths: Maths, fuel: nat)
    requires 0 <= x < w && 0 <= y < h
    requires Rendered(image, view, world, w, h * w, exposureFactor, p, maths, fuel)
    ensures image[PixelIndex(x, y, w, h)] == PixelWord(view, world, x, y, exposureFactor, p, maths, fuel)
  {
    var i := PixelIndex(x, y, w, h);
    assert i < h * w;
  }
}

/** The scene: objects, lights, background, camera and tracer settings,
    and the closest-hit query over the objects (src/tracer/scene.cpp). */
module Scenes {
  import opened Vector3D
  import opened Rays
  import opened Intersection
  import opened Shapes

  datatype LightSourceType = Point | Directional | Spot

  /** A light source as the scene uses it: its kind and the colour it
      contributes at a hit (object, view ray, distance, normal). The Phong
      and shadow computation behind that colour is not part of this
      model. */
  datatype LightSource = LightSource(kind: LightSourceType, computeColor: (ShapeRef, Ray, real, Vec3D) -> Vec3D)

  datatype TracerProperties = TracerProperties(maxRayRecursionDepth: int, maxRayReflectionDepth: int)

  datatype CameraProperties = CameraProperties(
    eye: Vec3D, up: Vec3D, at: Vec3D, fov: real, nearPlane: real,
    imagePlaneW: int, imagePlaneH: int, useExposure: bool, useGammaCorrection: bool)

  /** A camera: its properties and the projection that `lookThrough`
      applies to them (camera maths is not part of this model). */
  datatype Camera = Camera(props: CameraProperties, project: (CameraProperties, int, int) -> Ray)
  {
    function LookThrough(x: int, y: int): Ray { project(props, x, y) }
  }

  /** `GetDefaultAirProperties`: a zero-initialised static material with
      refraction 1, reflection 0 and density 1. */
  function AirMaterial(): (m: Mtrl)
    ensures m.density == 1.0 && m.reflection == 0.0 && m.refraction == 1.0
    ensures m.difTexture.None? && m.ambColor == Zero() && m.difColor == Zero()
  {
    Mtrl(Zero(), Zero(), Zero(), Zero(), 0.0, None, 1.0, 0.0, 1.0, 0.0, 0.0, 0.0)
  }

  /** The records the objects return for a ray, in object order. */
  function HitsOf(objects: seq<Shape>, ray: Ray): (hits: seq<CIsect>)
    ensures |hits| == |objects|
    ensures forall i :: 0 <= i < |objects| ==> hits[i] == objects[i].intersect(ray)
  {
    seq(|objects|, i requires 0 <= i < |objects| => objects[i].intersect(ray))
  }

  /** A hit the scan takes into account: it exists and, when the depth
      filter is on (depth > 0), it is not beyond the depth. */
  predicate Accepted(depth: real, h: CIsect)
  {
    h.found && !(depth > 0.0 && h.distance > depth)
  }

  predicate NoneAccepted(hits: seq<CIsect>, depth: real)
  {
    forall i :: 0 <= i < |hits| ==> !Accepted(depth, hits[i])
  }

  /** `hits[k]` is the nearest accepted hit, and the first of those at
      that distance. */
  predicate IsClosest(hits: seq<CIsect>, depth: real, k: int)
  {
    0 <= k < |hits| && Accepted(depth, hits[k]) &&
    (forall i :: 0 <= i < |hits| && Accepted(depth, hits[i]) ==> hits[k].distance <= hits[i].distance) &&
    (forall i :: 0 <= i < k && Accepted(depth, hits[i]) ==> hits[k].distance < hits[i].distance)
  }

  /** `hits[k]` is the first accepted hit. */
  predicate IsFirstAccepted(hits: seq<CIsect>, depth: real, k: int)
  {
    0 <= k < |hits| && Accepted(depth, hits[k]) &&
    forall i :: 0 <= i < k ==> !Accepted(depth, hits[i])
  }

  /** What `Scene::intersect` returns: a miss when nothing is accepted,
      otherwise the nearest accepted hit, or the first accepted one when
      the scan stops at the first hit. */
  predicate ClosestResult(hits: seq<CIsect>, depth: real, stopIfFound: bool, r: CIsect)
  {
    (NoneAccepted(hits, depth) ==> r == Absent()) &&
    (!NoneAccepted(hits, depth) ==>
       exists k :: 0 <= k < |hits| && r == hits[k] &&
                   (if stopIfFound then IsFirstAccepted(hits, depth, k) else IsClosest(hits, depth, k)))
  }

  /** At most one hit is the closest one. */
  lemma ClosestIsUnique(hits: seq<CIsect>, depth: real, j: int, k: int)
    requires IsClosest(hits, depth, j) && IsClosest(hits, depth, k)
    ensures j == k
  {
  }

  /** The scan without `stopIfFound`, as a function: the first accepted
      hit is always taken, and a later one replaces it only when strictly
      nearer. */
  function NearestAccepted(hits: seq<CIsect>, depth: real): CIsect
  {
    if hits == [] then Absent()
    else
      var prev := NearestAccepted(hits[..|hits| - 1], depth);
      var h := hits[|hits| - 1];
      if Accepted(depth, h) && (!prev.found || h.distance < prev.distance) then h else prev
  }

  /** The scan with `stopIfFound`: the first accepted hit. */
  function FirstAccepted(hits: seq<CIsect>, depth: real): CIsect
  {
    if hits == [] then Absent()
    else if Accepted(depth, hits[0]) then hits[0]
    else FirstAccepted(hits[1..], depth)
  }

  function SceneHit(hits: seq<CIsect>, depth: real, stopIfFound: bool): CIsect
  {
    if stopIfFound then FirstAccepted(hits, depth) else NearestAccepted(hits, depth)
  }

  lemma {:induction false} NearestAcceptedIsClosest(hits: seq<CIsect>, depth: real)
    ensures ClosestResult(hits, depth, false, NearestAccepted(hits, depth))
  {
    if hits != [] {
      var n := |hits| - 1;
      var init := hits[..n];
      NearestAcceptedIsClosest(init, depth);
      var prev := NearestAccepted(init, depth);
      var h := hits[n];
      assert forall i :: 0 <= i < n ==> hits[i] == init[i];
      if NoneAccepted(init, depth) {
        if Accepted(depth, h) {
          assert IsClosest(hits, depth, n);
        } else {
          assert NoneAccepted(hits, depth);
        }
      } else {
        var k :| 0 <= k < |init| && prev == init[k] && IsClosest(init, depth, k);
        if Accepted(depth, h) && h.distance < prev.distance {
          assert IsClosest(hits, depth, n);
        } else {
          assert IsClosest(hits, depth, k);
        }
      }
    }
  }

  lemma {:induction false} FirstAcceptedIsFirst(hits: seq<CIsect>, depth: real)
    ensures ClosestResult(hits, depth, true, FirstAccepted(hits, depth))
  {
    if hits != [] {
      FirstAcceptedIsFirst(hits[1..], depth);
      assert forall i :: 1 <= i < |hits| ==> hits[i] == hits[1..][i - 1];
      if Accepted(depth, hits[0]) {
        assert IsFirstAccepted(hits, depth, 0);
      } else if !NoneAccepted(hits[1..], depth) {
        var k :| 0 <= k < |hits[1..]| && FirstAccepted(hits[1..], depth) == hits[1..][k] &&
                 IsFirstAccepted(hits[1..], depth, k);
        assert IsFirstAccepted(hits, depth, k + 1);
      } else {
        assert NoneAccepted(hits, depth);
      }
    }
  }

  /** `ClosestResult` pins the result down: it is exactly `SceneHit`. */
  lemma ClosestResultIsSceneHit(hits: seq<CIsect>, depth: real, stopIfFound: bool, r: CIsect)
    requires ClosestResult(hits, depth, stopIfFound, r)
    ensures r == SceneHit(hits, depth, stopIfFound)
  {
    var s := SceneHit(hits, depth, stopIfFound);
    if stopIfFound {
      FirstAcceptedIsFirst(hits, depth);
    } else {
      NearestAcceptedIsClosest(hits, depth);
    }
    if !NoneAccepted(hits, depth) {
      var j :| 0 <= j < |hits| && r == hits[j] &&
               (if stopIfFound then IsFirstAccepted(hits, depth, j) else IsClosest(hits, depth, j));
      var k :| 0 <= k < |hits| && s == hits[k] &&
               (if stopIfFound then IsFirstAccepted(hits, depth, k) else IsClosest(hits, depth, k));
      if stopIfFound {
        FirstIsUnique(hits, depth, j, k);
      } else {
        ClosestIsUnique(hits, depth, j, k);
      }
    }
  }

  lemma FirstIsUnique(hits: seq<CIsect>, depth: real, j: int, k: int)
    requires IsFirstAccepted(hits, depth, j) && IsFirstAccepted(hits, depth, k)
    ensures j == k
  {
  }

  /** The sum of the colours of `lights`, in order. */
  function LightSum(lights: seq<LightSource>, obj: ShapeRef, ray: Ray, distance: real, normal: Vec3D): Vec3D
  {
    if lights == [] then Zero()
    else Add(lights[0].computeColor(obj, ray, distance, normal), LightSum(lights[1..], obj, ray, distance, normal))
  }

  lemma AddAssociates(a: Vec3D, b: Vec3D, c: Vec3D)
    ensures Add(Add(a, b), c) == Add(a, Add(b, c))
  {
  }

  /** A light appended at the end adds its own colour to the sum. */
  lemma {:induction false} LightSumSnoc(lights: seq<LightSource>, l: LightSource, obj: ShapeRef, ray: Ray, distance: real, normal: Vec3D)
    ensures LightSum(lights + [l], obj, ray, distance, normal) ==
            Add(LightSum(lights, obj, ray, distance, normal), l.computeColor(obj, ray, distance, normal))
  {
    if lights == [] {
      assert [l][1..] == [];
    } else {
      assert (lights + [l])[1..] == lights[1..] + [l];
      LightSumSnoc(lights[1..], l, obj, ray, distance, normal);
      AddAssociates(lights[0].computeColor(obj, ray, distance, normal),
                    LightSum(lights[1..], obj, ray, distance, normal),
                    l.computeColor(obj, ray, distance, normal));
    }
  }

  /** The parts of a scene the tracer reads, as one value. */
  datatype SceneView = SceneView(
    objects: seq<Shape>,
    lights: seq<LightSource>,
    background: Option<Mtrl>,
    camera: Option<Camera>,
    tracerProperties: Option<TracerProperties>,
    tracerDepth: real,
    imagePlaneW: int,
    imagePlaneH: int)

  class Scene {
    var objects: seq<Shape>
    var lights: seq<LightSource>
    var background: Option<Mtrl>
    var camera: Option<Camera>
    var tracerProperties: Option<TracerProperties>
    var tracerDepth: real
    var imagePlaneW: int
    var imagePlaneH: int

    function View(): (v: SceneView)
      reads this
      ensures v.objects == objects && v.lights == lights && v.background == background
      ensures v.camera == camera && v.tracerProperties == tracerProperties && v.tracerDepth == tracerDepth
      ensures v.imagePlaneW == imagePlaneW && v.imagePlaneH == imagePlaneH
    {
      SceneView(objects, lights, background, camera, tracerProperties, tracerDepth, imagePlaneW, imagePlaneH)
    }

    /** Everything is empty or null and the depth filter is off; the image
        plane size is left uninitialised. */
    constructor ()
      ensures objects == [] && lights == []
      ensures background.None? && camera.None? && tracerProperties.None?
      ensures tracerDepth == 0.0
    {
      objects, lights := [], [];
      background, camera, tracerProperties := None, None, None;
      tracerDepth := 0.0;
    }

    /** The closest accepted hit along `ray`, or the first one when
        `stopIfFound`. */
    method Intersect(ray: Ray, stopIfFound: bool) returns (closest: CIsect)
      ensures ClosestResult(HitsOf(objects, ray), tracerDepth, stopIfFound, closest)
    {
      ghost var hits := HitsOf(objects, ray);
      var closestDistance := TooFarAway;
      var anyFound := false;
      closest := Absent();
      ghost var k := -1;
      var obj := 0;
      while obj < |objects|
        invariant 0 <= obj <= |objects|
        invariant anyFound <==> !NoneAccepted(hits[..obj], tracerDepth)
        invariant !anyFound ==> closest == Absent()
        invariant anyFound ==> 0 <= k < obj && closest == hits[k] && closestDistance == closest.distance &&
                               IsClosest(hits[..obj], tracerDepth, k)
        invariant anyFound ==> !stopIfFound
      {
        var isect := objects[obj].intersect(ray);
        if !isect.found {
          obj := obj + 1;
          continue;
        }
        if tracerDepth > 0.0 && isect.distance > tracerDepth {
          obj := obj + 1;
          continue;
        }
        if isect.distance < closestDistance || !anyFound {
          closestDistance := isect.distance;
          closest := isect;
          anyFound := true;
          k := obj;
        }
        if stopIfFound {
          assert IsFirstAccepted(hits, tracerDepth, obj);
          return closest;
        }
        obj := obj + 1;
      }
      assert hits[..obj] == hits;
    }

    /** The sum, over the lights in order, of the colour each contributes
        at the hit. */
    method Illuminate(viewRay: Ray, obj: ShapeRef, distance: real, normal: Vec3D) returns (resultColor: Vec3D)
      ensures resultColor == LightSum(lights, obj, viewRay, distance, normal)
    {
      resultColor := Zero();
      var light := 0;
      while light < |lights|
        invariant 0 <= light <= |lights|
        invariant resultColor == LightSum(lights[..light], obj, viewRay, distance, normal)
      {
        var source := lights[light];
        assert lights[..light + 1] == lights[..light] + [source];
        LightSumSnoc(lights[..light], source, obj, viewRay, distance, normal);
        resultColor := Add(resultColor, source.computeColor(obj, viewRay, distance, normal));
        light := light + 1;
      }
      assert lights[..light] == lights;
    }

    method AddObject(shape: Shape)
      modifies this
      ensures objects == old(objects) + [shape]
      ensures lights == old(lights) && background == old(background) && camera == old(camera)
      ensures tracerProperties == old(tracerProperties) && tracerDepth == old(tracerDepth)
      ensures imagePlaneW == old(imagePlaneW) && imagePlaneH == old(imagePlaneH)
    {
      objects := objects + [shape];
    }

    method AddLightSource(light: LightSource)
      modifies this
      ensures lights == old(lights) + [light]
      ensures objects == old(objects) && background == old(background) && camera == old(camera)
      ensures tracerProperties == old(tracerProperties) && tracerDepth == old(tracerDepth)
      ensures imagePlaneW == old(imagePlaneW) && imagePlaneH == old(imagePlaneH)
    {
      lights := lights + [light];
    }

    method SetBackground(bgMtrl: Option<Mtrl>)
      modifies this
      ensures background == bgMtrl
      ensures objects == old(objects) && lights == old(lights) && camera == old(camera)
      ensures tracerProperties == old(tracerProperties) && tracerDepth == old(tracerDepth)
      ensures imagePlaneW == old(imagePlaneW) && imagePlaneH == old(imagePlaneH)
    {
      background := bgMtrl;
    }

    /** `setupCamera`: a new camera built from the properties. */
    method SetupCamera(properties: CameraProperties, project: (CameraProperties, int, int) -> Ray)
      modifies this
      ensures camera.Some? && camera.value.props == properties
      ensures objects == old(objects) && lights == old(lights) && background == old(background)
      ensures tracerProperties == old(tracerProperties) && tracerDepth == old(tracerDepth)
      ensures imagePlaneW == old(imagePlaneW) && imagePlaneH == old(imagePlaneH)
    {
      camera := Some(Camera(properties, project));
    }

    method SetTracerProperties(properties: Option<TracerProperties>)
      modifies this
      ensures tracerProperties == properties
      ensures objects == old(objects) && lights == old(lights) && background == old(background)
      ensures camera == old(camera) && tracerDepth == old(tracerDepth)
      ensures imagePlaneW == old(imagePlaneW) && imagePlaneH == old(imagePlaneH)
    {
      tracerProperties := properties;
    }

    /** The image plane size is stored in the scene and, when there is a
        camera, in the camera's properties too. */
    method SetImagePlaneRes(resX: int, resY: int)
      modifies this
      ensures imagePlaneW == resX && imagePlaneH == resY
      ensures old(camera).None? ==> camera.None?
      ensures old(camera).Some? ==>
                (camera.Some? && camera.value.props == old(camera).value.props.(imagePlaneW := resX, imagePlaneH := resY))
      ensures objects == old(objects) && lights == old(lights) && background == old(background)
      ensures tracerProperties == old(tracerProperties) && tracerDepth == old(tracerDepth)
    {
      imagePlaneW := resX;
      imagePlaneH := resY;
      if camera.Some? {
        var c := camera.value;
        camera := Some(c.(props := c.props.(imagePlaneW := resX, imagePlaneH := resY)));
      }
    }

    /** Objects and lights are dropped and every pointer is nulled; the
        depth filter and the image plane size stay. */
    method Clear()
      modifies this
      ensures objects == [] && lights == []
      ensures background.None? && camera.None? && tracerProperties.None?
      ensures tracerDepth == old(tracerDepth)
      ensures imagePlaneW == old(imagePlaneW) && imagePlaneH == old(imagePlaneH)
    {
      objects := [];
      lights := [];
      background := None;
      camera := None;
      tracerProperties := None;
    }

    method SetTracerDepth(depth: real)
      modifies this
      ensures tracerDepth == depth
      ensures objects == old(objects) && lights == old(lights) && background == old(background)
      ensures camera == old(camera) && tracerProperties == old(tracerProperties)
      ensures imagePlaneW == old(imagePlaneW) && imagePlaneH == old(imagePlaneH)
    {
      tracerDepth := depth;
    }
  }
}

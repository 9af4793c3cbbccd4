/** A triangle-mesh scene object (src/geometry/model.cpp,
    src/geometry/model.h). */
module Models {
  import opened Vector3D
  import opened Rays
  import opened Intersection
  import opened Shapes
  import opened Textures

  /** The distances of the hits that exist, in order. */
  function FoundDistances(hits: seq<CIsect>): (ds: seq<real>)
    ensures |ds| <= |hits|
  {
    if hits == [] then []
    else
      var last := hits[|hits| - 1];
      FoundDistances(hits[..|hits| - 1]) + (if last.found then [last.distance] else [])
  }

  /** Exactly the distances of existing hits are listed. */
  lemma {:induction false} FoundDistancesMembers(hits: seq<CIsect>, d: real)
    ensures d in FoundDistances(hits) <==> exists i :: 0 <= i < |hits| && hits[i].found && hits[i].distance == d
  {
    if hits != [] {
      var init := hits[..|hits| - 1];
      FoundDistancesMembers(init, d);
      if exists i :: 0 <= i < |init| && init[i].found && init[i].distance == d {
        var i :| 0 <= i < |init| && init[i].found && init[i].distance == d;
        assert hits[i] == init[i];
      }
      if exists i :: 0 <= i < |hits| && hits[i].found && hits[i].distance == d {
        var i :| 0 <= i < |hits| && hits[i].found && hits[i].distance == d;
        if i < |init| {
          assert init[i] == hits[i];
        }
      }
    }
  }

  /** `hits[k]` is the nearest existing hit, it is nearer than
      `TOO_FAR_AWAY`, and no earlier hit is as near. */
  predicate IsNearestTriangle(hits: seq<CIsect>, k: int)
  {
    0 <= k < |hits| && hits[k].found && hits[k].distance < TooFarAway &&
    (forall i :: 0 <= i < |hits| && hits[i].found ==> hits[k].distance <= hits[i].distance) &&
    (forall i :: 0 <= i < k && hits[i].found ==> hits[k].distance < hits[i].distance)
  }

  predicate SomeNearHit(hits: seq<CIsect>)
  {
    exists i :: 0 <= i < |hits| && hits[i].found && hits[i].distance < TooFarAway
  }

  /** One more triangle's record after `hs`: its distance is listed when
      it exists. */
  lemma FoundDistancesStep(hs: seq<CIsect>, c: CIsect)
    ensures FoundDistances(hs + [c]) == FoundDistances(hs) + (if c.found then [c.distance] else [])
  {
    assert (hs + [c])[..|hs|] == hs;
  }

  /** A record no nearer than the nearest so far leaves it the nearest. */
  lemma NearestKept(hs: seq<CIsect>, c: CIsect, k: int)
    requires IsNearestTriangle(hs, k)
    requires c.found ==> hs[k].distance <= c.distance
    ensures IsNearestTriangle(hs + [c], k) && SomeNearHit(hs + [c])
  {
    assert (hs + [c])[k] == hs[k];
  }

  /** A record nearer than `TOO_FAR_AWAY` and than every hit so far
      becomes the nearest. */
  lemma NearestTaken(hs: seq<CIsect>, c: CIsect, bound: real)
    requires c.found && c.distance < bound && c.distance < TooFarAway
    requires forall i :: 0 <= i < |hs| && hs[i].found ==> bound <= hs[i].distance
    ensures IsNearestTriangle(hs + [c], |hs|) && SomeNearHit(hs + [c])
  {
    assert (hs + [c])[|hs|] == c;
  }

  /** Without a near hit so far, a record that is not near adds none. */
  lemma NoNearHitStep(hs: seq<CIsect>, c: CIsect)
    requires !SomeNearHit(hs)
    requires c.found ==> TooFarAway <= c.distance
    ensures !SomeNearHit(hs + [c])
  {
  }

  /** What the loop over the triangles keeps about the records `hs` it
      has seen: the listed distances, whether a near hit was found, and
      the running nearest hit `k` with its distance in `closestDistance`. */
  predicate Scanned(hs: seq<CIsect>, closest: CIsect, closestDistance: real, k: int, self: nat)
  {
    closest.dst == FoundDistances(hs) &&
    (closest.found <==> SomeNearHit(hs)) &&
    (!closest.found ==> closest == Absent().(dst := closest.dst) && closestDistance == TooFarAway) &&
    (closest.found ==>
       0 <= k < |hs| && IsNearestTriangle(hs, k) && closest.obj == Ref(self) &&
       closestDistance == closest.distance &&
       closest.distance == hs[k].distance && closest.normal == hs[k].normal) &&
    closest.texCoords == Zero() && closest.u.Unset? && closest.v.Unset? && closest.insideIntervals == []
  }

  /** One pass of the loop in `Model::intersect`: the record `current` of
      the next triangle is listed when it exists and replaces the nearest
      hit when it is strictly nearer. */
  method NearestStep(closest: CIsect, closestDistance: real, ghost k: int, ghost seen: seq<CIsect>,
                     current: CIsect, self: nat)
    returns (next: CIsect, nextDistance: real, ghost nextK: int)
    requires Scanned(seen, closest, closestDistance, k, self)
    ensures Scanned(seen + [current], next, nextDistance, nextK, self)
  {
    next, nextDistance, nextK := closest, closestDistance, k;
    FoundDistancesStep(seen, current);
    if current.found {
      next := next.(dst := next.dst + [current.distance]);
      if current.distance < closestDistance {
        if closest.found {
          NearestTaken(seen, current, closestDistance);
        } else {
          assert !SomeNearHit(seen);
          NearestTaken(seen, current, TooFarAway);
        }
        next := next.(found := true, distance := current.distance, obj := Ref(self), normal := current.normal);
        nextDistance := current.distance;
        nextK := |seen|;
      } else if closest.found {
        NearestKept(seen, current, k);
      } else {
        NoNearHitStep(seen, current);
      }
    } else if closest.found {
      NearestKept(seen, current, k);
    } else {
      NoNearHitStep(seen, current);
    }
  }

  class Model {
    /** The triangles' intersection queries, in mesh order. */
    var triangles: seq<Ray -> CIsect>
    /** The bounding-box test (its slab arithmetic is not part of this
        model). */
    var bboxHit: Ray -> bool
    var mtrl: Option<Mtrl>
    var light: bool
    /** The identity the model records as `Object` (`this`). */
    var id: nat

    constructor (tris: seq<Ray -> CIsect>, bbox: Ray -> bool, material: Option<Mtrl>, self: nat)
      ensures triangles == tris && bboxHit == bbox && mtrl == material && id == self
      ensures !light
    {
      triangles, bboxHit, mtrl, light, id := tris, bbox, material, false, self;
    }

    /** Outside the bounding box nothing is hit and no triangle is asked.
        Inside it, every existing triangle hit's distance is recorded, and
        the result is a hit exactly when some triangle is hit nearer than
        `TOO_FAR_AWAY`: the first nearest one, with its distance and
        normal, and the model itself as the object. */
    method Intersect(ray: Ray) returns (closest: CIsect)
      ensures !bboxHit(ray) ==> closest == Absent()
      ensures bboxHit(ray) ==> closest.dst == FoundDistances(HitsOn(triangles, ray))
      ensures bboxHit(ray) ==> (closest.found <==> SomeNearHit(HitsOn(triangles, ray)))
      ensures closest.found ==>
                closest.obj == Ref(id) &&
                exists k :: IsNearestTriangle(HitsOn(triangles, ray), k) &&
                            closest.distance == HitsOn(triangles, ray)[k].distance &&
                            closest.normal == HitsOn(triangles, ray)[k].normal
      ensures !closest.found ==> closest == Absent().(dst := closest.dst)
      ensures closest.texCoords == Zero() && closest.u.Unset? && closest.v.Unset? && closest.insideIntervals == []
    {
      if !bboxHit(ray) {
        return Absent();
      }
      ghost var hits := HitsOn(triangles, ray);
      var closestDistance := TooFarAway;
      closest := Absent();
      ghost var k := -1;
      var tri := 0;
      while tri < |triangles|
        invariant 0 <= tri <= |triangles|
        invariant Scanned(hits[..tri], closest, closestDistance, k, id)
      {
        var current := triangles[tri](ray);
        assert hits[..tri + 1] == hits[..tri] + [current];
        closest, closestDistance, k := NearestStep(closest, closestDistance, k, hits[..tri], current, id);
        tri := tri + 1;
      }
      assert hits[..tri] == hits;
    }

    /** `getNormal` returns the normal already stored in the record. */
    function GetNormal(ray: Ray, distance: real, isect: CIsect): (n: Vec3D)
      ensures n == isect.normal
    {
      isect.normal
    }

    /** `getTexCoords` returns the texture coordinates stored in the
        record. */
    function GetTexCoords(pnt: Vec3D, isect: CIsect): (t: Vec3D)
      ensures t == isect.texCoords
    {
      isect.texCoords
    }

    /** `getAmbColor` and `getSpcColor`: the material's colours, the
        same at every point of the mesh. */
    function GetAmbColor(pnt: Vec3D, isect: CIsect): (c: Vec3D)
      reads this
      requires mtrl.Some?
      ensures c == mtrl.value.ambColor
    {
      mtrl.value.ambColor
    }

    function GetSpcColor(pnt: Vec3D, isect: CIsect): (c: Vec3D)
      reads this
      requires mtrl.Some?
      ensures c == mtrl.value.spcColor
    {
      mtrl.value.spcColor
    }

    /** The diffuse colour, modulated by the diffuse texture's sample at the
        recorded texture coordinates when there is one (bilinear sampling
        is a parameter). */
    function GetDifColor(pnt: Vec3D, isect: CIsect, sample: (Texture, real, real) -> Vec3D): (c: Vec3D)
      reads this
      requires mtrl.Some?
      ensures mtrl.value.difTexture.None? ==> c == mtrl.value.difColor
      ensures mtrl.value.difTexture.Some? ==>
                c == Scale3D(sample(mtrl.value.difTexture.value, isect.texCoords.x, isect.texCoords.y), mtrl.value.difColor)
    {
      if mtrl.value.difTexture.Some? then
        var texCoords := GetTexCoords(pnt, isect);
        Scale3D(sample(mtrl.value.difTexture.value, texCoords.x, texCoords.y), mtrl.value.difColor)
      else mtrl.value.difColor
    }

    method SetIsLight(isLight: bool)
      modifies this
      ensures light == isLight
      ensures triangles == old(triangles) && bboxHit == old(bboxHit) && mtrl == old(mtrl) && id == old(id)
    {
      light := isLight;
    }
  }

  /** The records the triangles return for a ray, in mesh order. */
  function HitsOn(triangles: seq<Ray -> CIsect>, ray: Ray): (hits: seq<CIsect>)
    ensures |hits| == |triangles|
    ensures forall i :: 0 <= i < |triangles| ==> hits[i] == triangles[i](ray)
  {
    seq(|triangles|, i requires 0 <= i < |triangles| => triangles[i](ray))
  }
}

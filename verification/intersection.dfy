/** The ray/shape intersection record `CIsect`
    (src/geometry/intersection.h). */
module Intersection {
  import opened Vector3D
  import opened Spans

  /** An `IShape*`: null, or the shape with the given identity. */
  datatype ShapeRef = Null | Ref(id: nat)

  /** A float the constructor leaves uninitialised until it is assigned. */
  datatype Indet = Unset | Known(value: real)

  /** `Exists` is spelt `found` and `Object` `obj` (Dafny reserves
      `exists` and `object`). */
  datatype CIsect = CIsect(
    found: bool,
    obj: ShapeRef,
    normal: Vec3D,
    texCoords: Vec3D,
    u: Indet,
    v: Indet,
    distance: real,
    dst: seq<real>,
    insideIntervals: seq<Span>)

  /** `TOO_FAR_AWAY`, the distance standing for "no hit". */
  const TooFarAway: real := 1000000.0

  /** `CIsect(hit, dist, object, normal)`: the four arguments are stored,
      texture coordinates are zero, U and V unset and both lists empty. */
  function NewIsect(hit: bool, dist: real, obj: ShapeRef, normal: Vec3D): (c: CIsect)
    ensures c.found == hit && c.distance == dist && c.obj == obj && c.normal == normal
    ensures c.texCoords == Zero() && c.u.Unset? && c.v.Unset?
    ensures c.dst == [] && c.insideIntervals == []
  {
    CIsect(hit, obj, normal, Zero(), Unset, Unset, dist, [], [])
  }

  /** `CIsect()` and `CIsect(false)`: the record of a miss. */
  function Absent(): (c: CIsect)
    ensures !c.found && c.distance == -1.0 && c.obj == Null && c.normal == Zero()
    ensures c.dst == [] && c.insideIntervals == []
  {
    NewIsect(false, -1.0, Null, Zero())
  }

  /** A hit lists at least one crossing distance, so its `Dst` has a
      front and a back. */
  predicate DstReady(c: CIsect)
  {
    c.found ==> c.dst != []
  }

  /** `c` carries the surface data (object, normal, texture coordinates,
      U and V) of `src`. */
  predicate SameSurface(c: CIsect, src: CIsect)
  {
    c.obj == src.obj && c.normal == src.normal && c.texCoords == src.texCoords &&
    c.u == src.u && c.v == src.v
  }

  /** A hit is nearer than `TOO_FAR_AWAY`, and so are all its crossings. */
  predicate Near(c: CIsect)
  {
    c.found ==> c.distance < TooFarAway && forall d :: d in c.dst ==> d < TooFarAway
  }
}

/** The union node of a CSG tree (src/csg/csgunion.cpp). */
module CsgUnion {
  import opened Vector3D
  import opened Intersection

  /** The distance a child is compared at: a miss counts as
      `TOO_FAR_AWAY`. */
  function Reach(c: CIsect): real
  {
    if c.found then c.distance else TooFarAway
  }

  /** The crossings a child contributes: its own if it was hit. */
  function Crossings(c: CIsect): seq<real>
  {
    if c.found then c.dst else []
  }

  /** The record a union node returns for the records of its children. */
  function UnionOf(l: CIsect, r: CIsect): (u: CIsect)
    ensures u.found <==> l.found || r.found
    ensures !u.found ==> u == Absent()
    ensures u.found ==> u.distance == Min(Reach(l), Reach(r))
    // the nearer child supplies the surface; on a tie the right one does
    ensures u.found && Reach(l) < Reach(r) ==> SameSurface(u, l)
    ensures u.found && Reach(r) <= Reach(l) ==> SameSurface(u, r)
    ensures u.found ==> u.dst == Crossings(l) + Crossings(r) && u.insideIntervals == []
    ensures DstReady(l) && DstReady(r) ==> DstReady(u)
    ensures Near(l) && Near(r) ==> Near(u)
  {
    if !(l.found || r.found) then Absent()
    else
      var src := if Reach(l) < Reach(r) then l else r;
      CIsect(true, src.obj, src.normal, src.texCoords, src.u, src.v, Reach(src),
             Crossings(l) + Crossings(r), [])
  }

  /** A single hit child nearer than `TOO_FAR_AWAY` passes its surface and
      distance through unchanged. */
  lemma UnionOfSingleHit(l: CIsect, r: CIsect)
    requires l.found != r.found
    requires (if l.found then l else r).distance < TooFarAway
    ensures var u := UnionOf(l, r);
            var hit := if l.found then l else r;
            u.found && u.distance == hit.distance && SameSurface(u, hit) && u.dst == hit.dst
  {
  }

  /** `CSGUnion::intersect`, given the records its two children returned
      (both children are always evaluated). */
  method Intersect(lChild: CIsect, rChild: CIsect) returns (unite: CIsect)
    ensures unite == UnionOf(lChild, rChild)
  {
    var lIsect, rIsect := lChild, rChild;
    if !lIsect.found {
      lIsect := lIsect.(distance := TooFarAway);
    }
    if !rIsect.found {
      rIsect := rIsect.(distance := TooFarAway);
    }
    unite := Absent();
    unite := unite.(found := lIsect.found || rIsect.found);
    if !unite.found {
      return Absent();
    }
    if lIsect.distance < rIsect.distance {
      unite := unite.(distance := lIsect.distance, normal := lIsect.normal, obj := lIsect.obj,
                      texCoords := lIsect.texCoords, u := lIsect.u, v := lIsect.v);
    } else {
      unite := unite.(distance := rIsect.distance, normal := rIsect.normal, obj := rIsect.obj,
                      texCoords := rIsect.texCoords, u := rIsect.u, v := rIsect.v);
    }
    if lIsect.found {
      unite := unite.(dst := lIsect.dst);
    }
    if rIsect.found {
      unite := unite.(dst := unite.dst + rIsect.dst);
    }
  }
}

/** The intersection node of a CSG tree (src/csg/csgintersection.cpp). */
module CsgIntersection {
  import opened Vector3D
  import opened Intersection
  import opened Sorting

  /** The two crossing ranges overlap with distinct starts: one child is
      entered strictly before the other and left after it is entered. */
  predicate Overlap(l: CIsect, r: CIsect)
    requires l.dst != [] && r.dst != []
  {
    var lMin, lMax, rMin, rMax := Least(l.dst), Greatest(l.dst), Least(r.dst), Greatest(r.dst);
    (lMin < rMin && lMax > rMin) || (rMin < lMin && rMax > lMin)
  }

  /** The record an intersection node returns for the records of its
      children; both hit records must list crossings (`front()` and
      `back()` of an empty list are undefined). */
  function IntersectionOf(l: CIsect, r: CIsect): (u: CIsect)
    requires l.found && r.found ==> l.dst != [] && r.dst != []
    ensures !l.found || !r.found ==> u == Absent()
    ensures l.found && r.found ==> (u.found <==> Overlap(l, r))
    ensures !u.found ==> u == Absent()
    // the region starts where the later child is entered, and that
    // child supplies the surface
    ensures u.found ==>
              u.distance == Max(Least(l.dst), Least(r.dst)) &&
              u.dst == [u.distance, Min(Greatest(l.dst), Greatest(r.dst))] &&
              u.dst[0] <= u.dst[1] && u.insideIntervals == [] &&
              SameSurface(u, if Least(l.dst) < Least(r.dst) then r else l)
  {
    if !l.found || !r.found then Absent()
    else
      var lMin, lMax, rMin, rMax := Least(l.dst), Greatest(l.dst), Least(r.dst), Greatest(r.dst);
      if lMin < rMin && lMax > rMin then
        CIsect(true, r.obj, r.normal, r.texCoords, r.u, r.v, rMin, [rMin, Min(lMax, rMax)], [])
      else if rMin < lMin && rMax > lMin then
        CIsect(true, l.obj, l.normal, l.texCoords, l.u, l.v, lMin, [lMin, Min(lMax, rMax)], [])
      else Absent()
  }

  /** A region between crossings nearer than `TOO_FAR_AWAY` is itself
      nearer. */
  lemma IntersectionOfNear(l: CIsect, r: CIsect)
    requires l.found && r.found ==> l.dst != [] && r.dst != []
    requires Near(l) && Near(r)
    ensures Near(IntersectionOf(l, r))
  {
  }

  /** Intersection does not depend on the order of its children. */
  lemma IntersectionCommutes(l: CIsect, r: CIsect)
    requires l.found && r.found ==> l.dst != [] && r.dst != []
    ensures IntersectionOf(l, r) == IntersectionOf(r, l)
  {
  }

  /** Children that enter at the same distance never intersect. */
  lemma EqualStartsMiss(l: CIsect, r: CIsect)
    requires l.found && r.found && l.dst != [] && r.dst != []
    requires Least(l.dst) == Least(r.dst)
    ensures !IntersectionOf(l, r).found
  {
  }

  /** `CSGCIsect::intersect`, given the records its two children returned. */
  method Intersect(lChild: CIsect, rChild: CIsect) returns (intersect: CIsect)
    requires lChild.found && rChild.found ==> lChild.dst != [] && rChild.dst != []
    ensures intersect == IntersectionOf(lChild, rChild)
  {
    var lIsect, rIsect := lChild, rChild;
    if !lIsect.found || !rIsect.found {
      return Absent();
    }
    lIsect := lIsect.(dst := Sort(lIsect.dst));
    rIsect := rIsect.(dst := Sort(rIsect.dst));
    var lMin, lMax := Front(lIsect.dst), Back(lIsect.dst);
    var rMin, rMax := Front(rIsect.dst), Back(rIsect.dst);
    SortedEnds(lChild.dst);
    SortedEnds(rChild.dst);
    if lMin < rMin && lMax > rMin {
      intersect := Region(rIsect, rMin, Min(lMax, rMax));
    } else if rMin < lMin && rMax > lMin {
      intersect := Region(lIsect, lMin, Min(lMax, rMax));
    } else {
      return Absent();
    }
  }

  /** The record the node fills in once the children overlap: a fresh hit
      record takes the surface of `from` and the crossings `enter` and
      `leave`, in that order. */
  method Region(from: CIsect, enter: real, leave: real) returns (intersect: CIsect)
    ensures intersect == CIsect(true, from.obj, from.normal, from.texCoords, from.u, from.v,
                                enter, [enter, leave], [])
  {
    intersect := NewIsect(true, -1.0, Null, Zero());
    intersect := intersect.(distance := enter, obj := from.obj, normal := from.normal,
                            u := from.u, v := from.v, texCoords := from.texCoords);
    intersect := intersect.(dst := intersect.dst + [enter]);
    intersect := intersect.(dst := intersect.dst + [leave]);
    assert intersect.dst == [enter, leave];
  }
}

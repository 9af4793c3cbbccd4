/** The difference node of a CSG tree, left minus right
    (src/csg/csgdifference.cpp). */
module CsgDifference {
  import opened Vector3D
  import opened Intersection
  import opened Sorting

  /** The record a difference node returns for the records of its
      children; when both are hits, both must list crossings. */
  function DifferenceOf(l: CIsect, r: CIsect): (u: CIsect)
    requires l.found && r.found ==> l.dst != [] && r.dst != []
    ensures !l.found ==> u == Absent()
    ensures l.found && !r.found ==> u == l
    ensures u.found ==> l.found
    ensures !u.found ==> u == Absent() || u == l
    ensures l.found && r.found && u.found ==> Sort(l.dst) <= u.dst
    ensures DstReady(l) ==> DstReady(u)
  {
    if !l.found then Absent()
    else if !r.found then l
    else
      var ls, rs := Sort(l.dst), Sort(r.dst);
      var lMin, lMax, rMin, rMax := Least(l.dst), Greatest(l.dst), Least(r.dst), Greatest(r.dst);
      if rMax < lMin || lMax < rMin then l.(dst := ls)
      else if lMin < rMin then
        CIsect(true, l.obj, l.normal, l.texCoords, l.u, l.v, lMin, ls + rs, [])
      else if rMax < lMax then
        CIsect(true, r.obj, Neg(r.normal), l.texCoords, l.u, l.v, rMax, ls + rs, [])
      else Absent()
  }

  lemma SortKeepsElements(s: seq<real>)
    ensures forall d :: d in Sort(s) <==> d in s
  {
    forall d
      ensures d in Sort(s) <==> d in s
    {
      assert d in Sort(s) <==> d in multiset(Sort(s));
    }
  }

  /** Hits nearer than `TOO_FAR_AWAY` give a result that is nearer too. */
  lemma DifferenceOfNear(l: CIsect, r: CIsect)
    requires l.found && r.found ==> l.dst != [] && r.dst != []
    requires Near(l) && Near(r)
    ensures Near(DifferenceOf(l, r))
  {
    SortKeepsElements(l.dst);
    SortKeepsElements(r.dst);
  }

  /** Disjoint ranges leave the left record, its crossings now sorted. */
  lemma DifferenceOfDisjoint(l: CIsect, r: CIsect)
    requires l.found && r.found && l.dst != [] && r.dst != []
    requires Greatest(r.dst) < Least(l.dst) || Greatest(l.dst) < Least(r.dst)
    ensures DifferenceOf(l, r) == l.(dst := Sort(l.dst))
  {
  }

  /** Overlapping ranges: the left child is entered first, so the
      difference starts where the left child does, with its surface. */
  lemma DifferenceOfLeftFirst(l: CIsect, r: CIsect)
    requires l.found && r.found && l.dst != [] && r.dst != []
    requires !(Greatest(r.dst) < Least(l.dst) || Greatest(l.dst) < Least(r.dst))
    requires Least(l.dst) < Least(r.dst)
    ensures var u := DifferenceOf(l, r);
            u.found && u.distance == Least(l.dst) && SameSurface(u, l) &&
            u.dst == Sort(l.dst) + Sort(r.dst) && u.insideIntervals == []
  {
  }

  /** Overlapping ranges, the right child entered no later: the difference
      starts where the right child is left, on its inverted surface, with
      the left child's texture data. */
  lemma DifferenceOfRightFirst(l: CIsect, r: CIsect)
    requires l.found && r.found && l.dst != [] && r.dst != []
    requires !(Greatest(r.dst) < Least(l.dst) || Greatest(l.dst) < Least(r.dst))
    requires Least(r.dst) <= Least(l.dst) && Greatest(r.dst) < Greatest(l.dst)
    ensures var u := DifferenceOf(l, r);
            u.found && u.distance == Greatest(r.dst) && u.obj == r.obj &&
            u.normal == Neg(r.normal) && u.texCoords == l.texCoords && u.u == l.u && u.v == l.v &&
            u.dst == Sort(l.dst) + Sort(r.dst) && u.insideIntervals == []
  {
  }

  /** A left range covered by the right one leaves nothing. */
  lemma DifferenceOfCovered(l: CIsect, r: CIsect)
    requires l.found && r.found && l.dst != [] && r.dst != []
    requires Least(r.dst) <= Least(l.dst) && Greatest(l.dst) <= Greatest(r.dst)
    ensures DifferenceOf(l, r) == Absent()
  {
  }

  /** `CSGDifference::intersect`, given the records its two children
      returned. */
  method Intersect(lChild: CIsect, rChild: CIsect) returns (result: CIsect)
    requires lChild.found && rChild.found ==> lChild.dst != [] && rChild.dst != []
    ensures result == DifferenceOf(lChild, rChild)
  {
    var lIsect, rIsect := lChild, rChild;
    if !lIsect.found {
      return Absent();
    }
    if !rIsect.found {
      return lIsect;
    }
    lIsect := lIsect.(dst := Sort(lIsect.dst));
    rIsect := rIsect.(dst := Sort(rIsect.dst));
    var lMin, lMax := Front(lIsect.dst), Back(lIsect.dst);
    var rMin, rMax := Front(rIsect.dst), Back(rIsect.dst);
    SortedEnds(lChild.dst);
    SortedEnds(rChild.dst);
    var intersect := NewIsect(true, -1.0, Null, Zero());
    if rMax < lMin {
      return lIsect;
    }
    if lMax < rMin {
      return lIsect;
    }
    if lMin < rMin {
      intersect := intersect.(distance := lMin, obj := lIsect.obj, normal := lIsect.normal,
                              u := lIsect.u, v := lIsect.v, texCoords := lIsect.texCoords);
    } else if rMax < lMax {
      intersect := intersect.(distance := rMax, obj := rIsect.obj, normal := Neg(rIsect.normal),
                              u := lIsect.u, v := lIsect.v, texCoords := lIsect.texCoords);
    } else {
      return Absent();
    }
    intersect := intersect.(dst := lIsect.dst + rIsect.dst);
    result := intersect;
  }
}

/** Closed parameter intervals along a ray (src/geometry/span.h,
    src/geometry/span.cpp). */
module Spans {
  import opened Vector3D

  datatype Span = Span(start: real, end: real)

  /** The default-constructed span. */
  function DefaultSpan(): (s: Span)
    ensures s.start == -1.0 && s.end == -1.0
  {
    Span(-1.0, -1.0)
  }

  predicate WellFormed(s: Span) { s.start <= s.end }

  predicate IsToTheLeft(lh: Span, rh: Span) { lh.end < rh.start }

  predicate IsToTheRight(lh: Span, rh: Span) { lh.start > rh.end }

  /** `operator<` compares the starts with `<=`. */
  predicate Less(lh: Span, rh: Span) { lh.start <= rh.start }

  predicate Greater(lh: Span, rh: Span) { lh.start > rh.start }

  predicate Contains(s: Span, t: real) { s.start <= t && t <= s.end }

  /** Some span of the list contains `t`. */
  predicate Covers(spans: seq<Span>, t: real)
  {
    exists i :: 0 <= i < |spans| && Contains(spans[i], t)
  }

  lemma RightIsMirroredLeft(a: Span, b: Span)
    ensures IsToTheRight(a, b) <==> IsToTheLeft(b, a)
  {
  }

  /** `operator<` is reflexive, so it is not a strict order, and `>` is
      its exact negation. */
  lemma LessIsReflexive(a: Span, b: Span)
    ensures Less(a, a)
    ensures Greater(a, b) <==> !Less(a, b)
  {
  }

  // ---------------------------------------------------------------
  // Single-span operations
  // ---------------------------------------------------------------

  /** `SpanUnite` exactly as span.cpp writes it: the branch for `lh`
      lying to the right of `rh` has no early return, so the covering
      span is appended after the two disjoint ones. */
  function UniteAsWritten(lh: Span, rh: Span): (r: seq<Span>)
    ensures IsToTheLeft(lh, rh) ==> r == [lh, rh]
    ensures !IsToTheLeft(lh, rh) && IsToTheRight(lh, rh) ==>
              r == [rh, lh, Span(Min(lh.start, rh.start), Max(lh.end, rh.end))]
    ensures !IsToTheLeft(lh, rh) && !IsToTheRight(lh, rh) ==>
              r == [Span(Min(lh.start, rh.start), Max(lh.end, rh.end))]
  {
    if IsToTheLeft(lh, rh) then [lh, rh]
    else
      var res := if IsToTheRight(lh, rh) then [rh, lh] else [];
      res + [Span(Min(lh.start, rh.start), Max(lh.end, rh.end))]
  }

  /** The as-written union covers points that lie in neither span. */
  lemma UniteAsWrittenCoversGap()
    ensures var lh, rh := Span(2.0, 3.0), Span(0.0, 1.0);
            WellFormed(lh) && WellFormed(rh) &&
            Covers(UniteAsWritten(lh, rh), 1.5) &&
            !Contains(lh, 1.5) && !Contains(rh, 1.5)
  {
    var lh, rh := Span(2.0, 3.0), Span(0.0, 1.0);
    assert UniteAsWritten(lh, rh)[2] == Span(0.0, 3.0);
  }

  /** The union with the missing early return restored: the two spans when
      they are disjoint (in either order), the covering span otherwise. */
  function Unite(lh: Span, rh: Span): (r: seq<Span>)
    ensures 1 <= |r| <= 2
    ensures WellFormed(lh) && WellFormed(rh) ==>
              forall t :: Covers(r, t) <==> Contains(lh, t) || Contains(rh, t)
  {
    if IsToTheLeft(lh, rh) then
      assert forall t :: Covers([lh, rh], t) <==> Contains([lh, rh][0], t) || Contains([lh, rh][1], t);
      [lh, rh]
    else if IsToTheRight(lh, rh) then
      assert forall t :: Covers([rh, lh], t) <==> Contains([rh, lh][0], t) || Contains([rh, lh][1], t);
      [rh, lh]
    else
      var c := Span(Min(lh.start, rh.start), Max(lh.end, rh.end));
      assert forall t :: Covers([c], t) <==> Contains([c][0], t);
      [c]
  }

  lemma UniteMatchesAsWrittenExceptRightCase(lh: Span, rh: Span)
    ensures !(IsToTheRight(lh, rh) && !IsToTheLeft(lh, rh)) ==> Unite(lh, rh) == UniteAsWritten(lh, rh)
    ensures IsToTheRight(lh, rh) && !IsToTheLeft(lh, rh) ==>
              UniteAsWritten(lh, rh) == Unite(lh, rh) + [Span(Min(lh.start, rh.start), Max(lh.end, rh.end))]
  {
  }

  function Intersect(lh: Span, rh: Span): (r: seq<Span>)
    ensures r == [] <==> IsToTheLeft(lh, rh) || IsToTheRight(lh, rh)
    ensures |r| <= 1
    ensures r != [] ==> r[0] == Span(Max(lh.start, rh.start), Min(lh.end, rh.end))
    ensures r != [] ==> lh.start <= r[0].start && rh.start <= r[0].start &&
                        r[0].end <= lh.end && r[0].end <= rh.end
    ensures forall t :: Covers(r, t) <==> Contains(lh, t) && Contains(rh, t)
  {
    if IsToTheLeft(lh, rh) || IsToTheRight(lh, rh) then []
    else
      var c := Span(Max(lh.start, rh.start), Min(lh.end, rh.end));
      assert forall t :: Covers([c], t) <==> Contains([c][0], t);
      [c]
  }

  /** `SpanDifference`: the part of `lh` outside `rh`. A leading piece is
      kept only when it is longer than the tolerance; the trailing piece
      `[min(ends), lh.end]` is always kept, and degenerates to the single
      point `lh.end` when `rh` reaches past the end of `lh`. */
  function Difference(lh: Span, rh: Span, floatZero: real): (r: seq<Span>)
    ensures 1 <= |r| <= 2
    ensures IsToTheRight(rh, lh) || IsToTheLeft(rh, lh) ==> r == [lh]
    ensures !(IsToTheRight(rh, lh) || IsToTheLeft(rh, lh)) ==>
              r[|r| - 1] == Span(Min(lh.end, rh.end), lh.end) &&
              (|r| == 2 <==> Abs(lh.start - Max(lh.start, rh.start)) > floatZero)
    ensures WellFormed(lh) && floatZero >= 0.0 ==> forall t :: Covers(r, t) ==>
              Contains(lh, t) && (t == lh.end || !(rh.start < t < rh.end))
    ensures forall t :: Contains(lh, t) && !Contains(rh, t) && (t > rh.end || rh.start - lh.start > floatZero) ==>
              Covers(r, t)
  {
    if IsToTheRight(rh, lh) || IsToTheLeft(rh, lh) then
      assert forall t :: Covers([lh], t) <==> Contains([lh][0], t);
      [lh]
    else
      var fit := Span(Max(lh.start, rh.start), Min(lh.end, rh.end));
      var tail := Span(fit.end, lh.end);
      if Abs(lh.start - fit.start) > floatZero then
        var head := Span(lh.start, fit.start);
        assert forall t :: Covers([head, tail], t) <==> Contains([head, tail][0], t) || Contains([head, tail][1], t);
        [head, tail]
      else
        assert forall t :: Covers([tail], t) <==> Contains([tail][0], t);
        [tail]
  }

  // ---------------------------------------------------------------
  // List operations: every pair of the cartesian product, lh-major
  // ---------------------------------------------------------------

  /** The results of `f(a, b)` for every `b` of `rh`, concatenated. */
  function Row(f: (Span, Span) -> seq<Span>, a: Span, rh: seq<Span>): seq<Span>
  {
    if rh == [] then [] else f(a, rh[0]) + Row(f, a, rh[1..])
  }

  /** The results for every pair of `lh` × `rh`, lh-major. */
  function Pairwise(f: (Span, Span) -> seq<Span>, lh: seq<Span>, rh: seq<Span>): seq<Span>
  {
    if lh == [] then [] else Row(f, lh[0], rh) + Pairwise(f, lh[1..], rh)
  }

  lemma {:induction false} RowSnoc(f: (Span, Span) -> seq<Span>, a: Span, rh: seq<Span>, j: nat)
    requires j < |rh|
    ensures Row(f, a, rh[..j + 1]) == Row(f, a, rh[..j]) + f(a, rh[j])
  {
    if j == 0 {
      assert rh[..1][1..] == [];
    } else {
      assert rh[..j + 1][1..] == rh[1..][..j];
      assert rh[..j][1..] == rh[1..][..j - 1];
      RowSnoc(f, a, rh[1..], j - 1);
    }
  }

  lemma {:induction false} PairwiseSnoc(f: (Span, Span) -> seq<Span>, lh: seq<Span>, rh: seq<Span>, i: nat)
    requires i < |lh|
    ensures Pairwise(f, lh[..i + 1], rh) == Pairwise(f, lh[..i], rh) + Row(f, lh[i], rh)
  {
    if i == 0 {
      assert lh[..1][1..] == [];
    } else {
      assert lh[..i + 1][1..] == lh[1..][..i];
      assert lh[..i][1..] == lh[1..][..i - 1];
      PairwiseSnoc(f, lh[1..], rh, i - 1);
    }
  }

  /** The nested loops of the three list overloads: for every span of
      `lh`, for every span of `rh`, append `f`'s result to `res`. */
  method CombineAll(f: (Span, Span) -> seq<Span>, lh: seq<Span>, rh: seq<Span>) returns (res: seq<Span>)
    ensures res == Pairwise(f, lh, rh)
  {
    res := [];
    var i := 0;
    while i < |lh|
      invariant 0 <= i <= |lh|
      invariant res == Pairwise(f, lh[..i], rh)
    {
      var j := 0;
      while j < |rh|
        invariant 0 <= j <= |rh|
        invariant res == Pairwise(f, lh[..i], rh) + Row(f, lh[i], rh[..j])
      {
        var combined := f(lh[i], rh[j]);
        RowSnoc(f, lh[i], rh, j);
        res := res + combined;
        j := j + 1;
      }
      assert rh[..j] == rh;
      PairwiseSnoc(f, lh, rh, i);
      i := i + 1;
    }
    assert lh[..i] == lh;
  }

  lemma {:induction false} RowBounded(f: (Span, Span) -> seq<Span>, a: Span, rh: seq<Span>, k: nat)
    requires forall b :: |f(a, b)| <= k
    ensures |Row(f, a, rh)| <= |rh| * k
  {
    if rh != [] {
      RowBounded(f, a, rh[1..], k);
    }
  }

  lemma {:induction false} PairwiseBounded(f: (Span, Span) -> seq<Span>, lh: seq<Span>, rh: seq<Span>, k: nat)
    requires forall a, b :: |f(a, b)| <= k
    ensures |Pairwise(f, lh, rh)| <= |lh| * (|rh| * k)
  {
    if lh != [] {
      RowBounded(f, lh[0], rh, k);
      PairwiseBounded(f, lh[1..], rh, k);
      SuccTimes(|lh| - 1, |rh| * k);
    }
  }

  lemma {:induction false} RowCovers(f: (Span, Span) -> seq<Span>, a: Span, rh: seq<Span>, t: real)
    ensures Covers(Row(f, a, rh), t) <==> exists j :: 0 <= j < |rh| && Covers(f(a, rh[j]), t)
  {
    if rh != [] {
      RowCovers(f, a, rh[1..], t);
      CoversAppend(f(a, rh[0]), Row(f, a, rh[1..]), t);
      if Covers(Row(f, a, rh[1..]), t) {
        var j :| 0 <= j < |rh[1..]| && Covers(f(a, rh[1..][j]), t);
        assert Covers(f(a, rh[j + 1]), t);
      }
      if exists j :: 0 <= j < |rh| && Covers(f(a, rh[j]), t) {
        var j :| 0 <= j < |rh| && Covers(f(a, rh[j]), t);
        if j > 0 {
          assert Covers(f(a, rh[1..][j - 1]), t);
        }
      }
    }
  }

  lemma {:induction false} PairwiseCovers(f: (Span, Span) -> seq<Span>, lh: seq<Span>, rh: seq<Span>, t: real)
    ensures Covers(Pairwise(f, lh, rh), t) <==>
            exists i, j :: 0 <= i < |lh| && 0 <= j < |rh| && Covers(f(lh[i], rh[j]), t)
  {
    if lh != [] {
      PairwiseCovers(f, lh[1..], rh, t);
      RowCovers(f, lh[0], rh, t);
      CoversAppend(Row(f, lh[0], rh), Pairwise(f, lh[1..], rh), t);
      if Covers(Pairwise(f, lh[1..], rh), t) {
        var i, j :| 0 <= i < |lh[1..]| && 0 <= j < |rh| && Covers(f(lh[1..][i], rh[j]), t);
        assert Covers(f(lh[i + 1], rh[j]), t);
      }
      if exists i, j :: 0 <= i < |lh| && 0 <= j < |rh| && Covers(f(lh[i], rh[j]), t) {
        var i, j :| 0 <= i < |lh| && 0 <= j < |rh| && Covers(f(lh[i], rh[j]), t);
        if i > 0 {
          assert Covers(f(lh[1..][i - 1], rh[j]), t);
        }
      }
    }
  }

  lemma SuccTimes(n: nat, m: nat)
    ensures (n + 1) * m == m + n * m
  {
  }

  lemma CoversAppend(a: seq<Span>, b: seq<Span>, t: real)
    ensures Covers(a + b, t) <==> Covers(a, t) || Covers(b, t)
  {
    if Covers(a + b, t) {
      var i :| 0 <= i < |a + b| && Contains((a + b)[i], t);
      if i >= |a| {
        assert Contains(b[i - |a|], t);
      }
    }
    if Covers(b, t) {
      var i :| 0 <= i < |b| && Contains(b[i], t);
      assert (a + b)[|a| + i] == b[i];
    }
    if Covers(a, t) {
      var i :| 0 <= i < |a| && Contains(a[i], t);
      assert (a + b)[i] == a[i];
    }
  }

  lemma {:induction false} PairwiseEmpty(f: (Span, Span) -> seq<Span>, lh: seq<Span>, rh: seq<Span>)
    requires lh == [] || rh == []
    ensures Pairwise(f, lh, rh) == []
  {
    if lh != [] {
      PairwiseEmpty(f, lh[1..], rh);
    }
  }

  /** `SpanUnite` over two lists (with the corrected single-span union). */
  method UniteLists(lh: seq<Span>, rh: seq<Span>) returns (res: seq<Span>)
    ensures res == Pairwise(Unite, lh, rh)
    ensures lh == [] || rh == [] ==> res == []
  {
    res := CombineAll(Unite, lh, rh);
    if lh == [] || rh == [] {
      PairwiseEmpty(Unite, lh, rh);
    }
  }

  /** `SpanIntersect` over two lists: at most one span per pair, and a point
      is covered exactly when both lists cover it. */
  method IntersectLists(lh: seq<Span>, rh: seq<Span>) returns (res: seq<Span>)
    ensures res == Pairwise(Intersect, lh, rh)
    ensures |res| <= |lh| * |rh|
    ensures lh == [] || rh == [] ==> res == []
    ensures forall t :: Covers(res, t) <==> Covers(lh, t) && Covers(rh, t)
  {
    res := CombineAll(Intersect, lh, rh);
    PairwiseBounded(Intersect, lh, rh, 1);
    if lh == [] || rh == [] {
      PairwiseEmpty(Intersect, lh, rh);
    }
    forall t
      ensures Covers(res, t) <==> Covers(lh, t) && Covers(rh, t)
    {
      PairwiseCovers(Intersect, lh, rh, t);
    }
  }

  /** `SpanDifference` over two lists: each pair's difference, concatenated. */
  method DifferenceLists(lh: seq<Span>, rh: seq<Span>, floatZero: real) returns (res: seq<Span>)
    ensures res == Pairwise((a, b) => Difference(a, b, floatZero), lh, rh)
    ensures |res| <= 2 * |lh| * |rh|
    ensures lh == [] || rh == [] ==> res == []
  {
    var f := (a, b) => Difference(a, b, floatZero);
    res := CombineAll(f, lh, rh);
    PairwiseBounded(f, lh, rh, 2);
    if lh == [] || rh == [] {
      PairwiseEmpty(f, lh, rh);
    }
  }
}

/** `std::sort` on a list of crossing distances, and the least and
    greatest elements that the CSG operators read off its ends. */
module Sorting {

  predicate Sorted(s: seq<real>)
  {
    forall i, j :: 0 <= i < j < |s| ==> s[i] <= s[j]
  }

  function Insert(x: real, s: seq<real>): (r: seq<real>)
    requires Sorted(s)
    ensures Sorted(r)
    ensures multiset(r) == multiset(s) + multiset{x}
    ensures |r| == |s| + 1
  {
    if s == [] then [x]
    else if x <= s[0] then [x] + s
    else
      var rest := Insert(x, s[1..]);
      assert s == [s[0]] + s[1..];
      BoundedBelow(s[0], s[1..], x, rest);
      [s[0]] + rest
  }

  /** Every element of a list holding the elements of `t` and `x` is at
      least a bound of both. */
  lemma BoundedBelow(b: real, t: seq<real>, x: real, rest: seq<real>)
    requires multiset(rest) == multiset(t) + multiset{x}
    requires b <= x && forall i :: 0 <= i < |t| ==> b <= t[i]
    ensures forall k :: 0 <= k < |rest| ==> b <= rest[k]
  {
    forall k | 0 <= k < |rest|
      ensures b <= rest[k]
    {
      assert rest[k] in multiset(rest);
      if rest[k] != x {
        assert rest[k] in multiset(t);
        assert rest[k] in t;
      }
    }
  }

  /** The ascending permutation of `s`. */
  function Sort(s: seq<real>): (r: seq<real>)
    ensures Sorted(r)
    ensures multiset(r) == multiset(s)
    ensures |r| == |s|
  {
    if s == [] then []
    else
      assert s == [s[0]] + s[1..];
      Insert(s[0], Sort(s[1..]))
  }

  /** The smallest element. */
  function Least(s: seq<real>): (m: real)
    requires s != []
    ensures m in s
    ensures forall x :: x in s ==> m <= x
  {
    if |s| == 1 then s[0]
    else
      var rest := Least(s[1..]);
      assert forall x :: x in s ==> x == s[0] || x in s[1..];
      if s[0] <= rest then s[0] else rest
  }

  /** The largest element. */
  function Greatest(s: seq<real>): (m: real)
    requires s != []
    ensures m in s
    ensures forall x :: x in s ==> x <= m
  {
    if |s| == 1 then s[0]
    else
      var rest := Greatest(s[1..]);
      assert forall x :: x in s ==> x == s[0] || x in s[1..];
      if s[0] >= rest then s[0] else rest
  }

  /** `front()` and `back()` of a non-empty list. */
  function Front(s: seq<real>): real
    requires s != []
  {
    s[0]
  }

  function Back(s: seq<real>): real
    requires s != []
  {
    s[|s| - 1]
  }

  /** After sorting, `front()` is the least and `back()` the greatest
      element of the original list. */
  lemma SortedEnds(s: seq<real>)
    requires s != []
    ensures Front(Sort(s)) == Least(s)
    ensures Back(Sort(s)) == Greatest(s)
  {
    var r := Sort(s);
    FrontIsLeast(s, r);
    BackIsGreatest(s, r);
  }

  lemma FrontIsLeast(s: seq<real>, r: seq<real>)
    requires s != [] && |r| == |s| && Sorted(r) && multiset(r) == multiset(s)
    ensures r[0] == Least(s)
  {
    var lo := Least(s);
    assert lo in multiset(r);
    assert r[0] in multiset(s);
    assert r[0] in s;
    assert lo in r;
    var i :| 0 <= i < |r| && r[i] == lo;
    assert r[0] <= r[i];
  }

  lemma BackIsGreatest(s: seq<real>, r: seq<real>)
    requires s != [] && |r| == |s| && Sorted(r) && multiset(r) == multiset(s)
    ensures r[|r| - 1] == Greatest(s)
  {
    var hi := Greatest(s);
    assert hi in multiset(r);
    assert r[|r| - 1] in multiset(s);
    assert r[|r| - 1] in s;
    assert hi in r;
    var j :| 0 <= j < |r| && r[j] == hi;
    assert r[j] <= r[|r| - 1];
  }
}

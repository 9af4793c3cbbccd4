/** Three-component vectors over the reals (src/geometry/vector3d.h).
    The free operators are functions on the value type `Vec3D`; the
    in-place members (setters, compound assignments, normalize) are
    methods of the class `Vec`, which owns three mutable components. */
module Vector3D {

  datatype Vec3D = Vec3D(x: real, y: real, z: real)

  /** `std::min`, `std::max` and `fabs` on floats. */
  function Min(a: real, b: real): real { if a < b then a else b }
  function Max(a: real, b: real): real { if a > b then a else b }
  function Abs(a: real): real { if a < 0.0 then -a else a }

  /** The default-constructed vector. */
  function Zero(): Vec3D { Vec3D(0.0, 0.0, 0.0) }

  /** Floating-point tolerances that the C++ code takes from a header
      that is not part of this model; only their positivity is known. */
  datatype Precision = Precision(floatZero: real, epsilon: real)
  {
    predicate Valid() { floatZero > 0.0 && epsilon > 0.0 }
  }

  function Add(a: Vec3D, b: Vec3D): (r: Vec3D)
    ensures r.x - a.x == b.x && r.y - a.y == b.y && r.z - a.z == b.z
  {
    Vec3D(a.x + b.x, a.y + b.y, a.z + b.z)
  }

  function Sub(a: Vec3D, b: Vec3D): (r: Vec3D)
    ensures Add(r, b) == a
  {
    Vec3D(a.x - b.x, a.y - b.y, a.z - b.z)
  }

  /** `v * s` and `s * v` are the same product; one is its identity and
      zero sends every vector to the zero vector. */
  function Mul(v: Vec3D, s: real): (r: Vec3D)
    ensures s == 1.0 ==> r == v
    ensures s == 0.0 ==> r == Zero()
  {
    Vec3D(v.x * s, v.y * s, v.z * s)
  }

  function Div(v: Vec3D, s: real): (r: Vec3D)
    requires s != 0.0
    ensures Mul(r, s) == v
  {
    Vec3D(v.x / s, v.y / s, v.z / s)
  }

  /** Unary minus. */
  function Neg(v: Vec3D): (r: Vec3D)
    ensures Add(v, r) == Zero()
  {
    Vec3D(-v.x, -v.y, -v.z)
  }

  function Dot(a: Vec3D, b: Vec3D): real
  {
    a.x * b.x + a.y * b.y + a.z * b.z
  }

  /** The cross product is orthogonal to both of its operands. */
  function Cross(a: Vec3D, b: Vec3D): (c: Vec3D)
    ensures Dot(a, c) == 0.0 && Dot(b, c) == 0.0
  {
    Vec3D(a.y * b.z - a.z * b.y, a.z * b.x - a.x * b.z, a.x * b.y - a.y * b.x)
  }

  function Length2(v: Vec3D): (l: real)
    ensures l >= 0.0
  {
    Dot(v, v)
  }

  /** `length`: zero below the tolerance, exactly one for a squared length
      of one, otherwise the square root (a parameter here). */
  function Length(v: Vec3D, floatZero: real, sqrt: real -> real): (l: real)
    ensures Length2(v) < floatZero ==> l == 0.0
    ensures floatZero <= 1.0 && Length2(v) == 1.0 ==> l == 1.0
    ensures Length2(v) >= floatZero && Length2(v) != 1.0 ==> l == sqrt(Length2(v))
  {
    var len := Length2(v);
    if len < floatZero then 0.0
    else if len == 1.0 then 1.0
    else sqrt(Dot(v, v))
  }

  /** Componentwise product (`scale3D`); the all-ones vector is its
      identity on either side and the zero vector absorbs. */
  function Scale3D(a: Vec3D, b: Vec3D): (r: Vec3D)
    ensures r.x == a.x * b.x && r.y == a.y * b.y && r.z == a.z * b.z
    ensures a == Vec3D(1.0, 1.0, 1.0) ==> r == b
    ensures b == Vec3D(1.0, 1.0, 1.0) ==> r == a
    ensures a == Zero() || b == Zero() ==> r == Zero()
  {
    Vec3D(a.x * b.x, a.y * b.y, a.z * b.z)
  }

  /** The value `normalize` leaves behind: divided by its length, unless
      that length is zero. */
  function Normalized(v: Vec3D, floatZero: real, sqrt: real -> real): (r: Vec3D)
    ensures Length(v, floatZero, sqrt) == 0.0 ==> r == v
    ensures Length2(v) == 1.0 ==> r == v
  {
    var len := Length(v, floatZero, sqrt);
    if len != 0.0 then Div(v, len) else v
  }

  /** Scaling by `s` multiplies the squared length by `s * s`. */
  lemma MulScalesLength2(v: Vec3D, s: real)
    ensures Length2(Mul(v, s)) == s * s * Length2(v)
  {
    var r := Mul(v, s);
    assert r.x * r.x == s * s * (v.x * v.x);
    assert r.y * r.y == s * s * (v.y * v.y);
    assert r.z * r.z == s * s * (v.z * v.z);
  }

  /** The dot product is linear in its first operand. */
  lemma DotLinear(a: Vec3D, b: Vec3D, c: Vec3D, s: real)
    ensures Dot(Add(a, b), c) == Dot(a, c) + Dot(b, c)
    ensures Dot(Mul(a, s), c) == s * Dot(a, c)
  {
  }

  /** The zero vector is the identity of addition. */
  lemma AddZero(v: Vec3D)
    ensures Add(v, Zero()) == v && Add(Zero(), v) == v
  {
  }

  lemma NegInvolution(v: Vec3D)
    ensures Neg(Neg(v)) == v
  {
  }

  lemma DotCommutes(a: Vec3D, b: Vec3D)
    ensures Dot(a, b) == Dot(b, a)
  {
  }

  lemma Scale3DCommutes(a: Vec3D, b: Vec3D)
    ensures Scale3D(a, b) == Scale3D(b, a)
  {
  }

  lemma CrossAnticommutes(a: Vec3D, b: Vec3D)
    ensures Cross(a, b) == Neg(Cross(b, a))
  {
  }

  /** A vector whose components the setters and compound assignments
      update in place. */
  class Vec {
    var mX: real
    var mY: real
    var mZ: real

    function Value(): (v: Vec3D)
      reads this
      ensures v.x == mX && v.y == mY && v.z == mZ
    {
      Vec3D(mX, mY, mZ)
    }

    constructor (v: Vec3D)
      ensures Value() == v
    {
      mX, mY, mZ := v.x, v.y, v.z;
    }

    method SetX(x: real)
      modifies this
      ensures Value() == old(Value()).(x := x)
    {
      mX := x;
    }

    method SetY(y: real)
      modifies this
      ensures Value() == old(Value()).(y := y)
    {
      mY := y;
    }

    method SetZ(z: real)
      modifies this
      ensures Value() == old(Value()).(z := z)
    {
      mZ := z;
    }

    method SetXYZ(x: real, y: real, z: real)
      modifies this
      ensures Value() == Vec3D(x, y, z)
    {
      mX := x; mY := y; mZ := z;
    }

    /** `operator+=` */
    method AddAssign(rh: Vec3D)
      modifies this
      ensures Value() == Add(old(Value()), rh)
    {
      mX := mX + rh.x;
      mY := mY + rh.y;
      mZ := mZ + rh.z;
    }

    /** `operator-=` */
    method SubAssign(rh: Vec3D)
      modifies this
      ensures Value() == Sub(old(Value()), rh)
    {
      mX := mX - rh.x;
      mY := mY - rh.y;
      mZ := mZ - rh.z;
    }

    /** `operator*=` */
    method MulAssign(value: real)
      modifies this
      ensures Value() == Mul(old(Value()), value)
    {
      mX := mX * value;
      mY := mY * value;
      mZ := mZ * value;
    }

    /** `operator/=`; dividing by zero (an infinity in floating point) is
        not modelled. */
    method DivAssign(value: real)
      requires value != 0.0
      modifies this
      ensures Value() == Div(old(Value()), value)
    {
      mX := mX / value;
      mY := mY / value;
      mZ := mZ / value;
    }

    method Normalize(floatZero: real, sqrt: real -> real)
      modifies this
      ensures Value() == Normalized(old(Value()), floatZero, sqrt)
    {
      var len := Length(Value(), floatZero, sqrt);
      if len != 0.0 {
        DivAssign(len);
      }
    }
  }
}

/** Rays (src/geometry/ray.h): the constructor normalizes the direction. */
module Rays {
  import opened Vector3D

  datatype Ray = Ray(org: Vec3D, dir: Vec3D)

  function MakeRay(org: Vec3D, dir: Vec3D, p: Precision, sqrt: real -> real): (r: Ray)
    ensures r.org == org && r.dir == Normalized(dir, p.floatZero, sqrt)
  {
    Ray(org, Normalized(dir, p.floatZero, sqrt))
  }

  /** The point at parameter `t` along the ray. */
  function Apply(ray: Ray, t: real): (p: Vec3D)
    ensures Sub(p, ray.org) == Mul(ray.dir, t)
  {
    Add(ray.org, Mul(ray.dir, t))
  }
}

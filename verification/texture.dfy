/** Textures and nearest-texel lookup with repeat wrapping
    (src/illumination/texture.h, src/illumination/texture.cpp). */
module Textures {
  import opened Vector3D

  /** A row-major `width` × `height` block of colours. The pixel data are
      never changed after construction, so a texture is a value. */
  datatype Texture = Texture(data: seq<Vec3D>, width: int, height: int)

  /** The constructor keeps its three arguments as they are; data of
      `width * height` texels make a texture that can be sampled. */
  function MakeTexture(data: seq<Vec3D>, width: int, height: int): (t: Texture)
    ensures t.data == data && t.width == width && t.height == height
    ensures width > 0 && height > 0 && |data| == width * height ==> WellFormed(t)
  {
    Texture(data, width, height)
  }

  /** `static_cast<int>` of a float: truncation toward zero. */
  function Trunc(x: real): (n: int)
    ensures x >= 0.0 ==> n as real <= x < n as real + 1.0
    ensures x < 0.0 ==> n as real - 1.0 < x <= n as real
  {
    if x >= 0.0 then x.Floor else -((-x).Floor)
  }

  /** C++ `a % n` for a positive divisor: the remainder of the division
      truncated toward zero, which has the sign of the dividend (unlike
      Dafny's `%`). */
  function CppRem(a: int, n: int): (r: int)
    requires n > 0
    ensures a >= 0 ==> 0 <= r < n
    ensures a < 0 ==> -n < r <= 0
  {
    if a >= 0 then a % n else -((-a) % n)
  }

  /** The truncated remainder leaves a multiple of the divisor behind. */
  lemma CppRemIsRemainder(a: int, n: int)
    requires n > 0
    ensures exists q :: a == q * n + CppRem(a, n)
  {
    if a >= 0 {
      assert a == (a / n) * n + CppRem(a, n);
    } else {
      assert -a == ((-a) / n) * n + (-a) % n;
      assert a == (-((-a) / n)) * n + CppRem(a, n);
    }
  }

  /** The wrapped coordinate `(n + t % n) % n` of `sampleNearestRepeat`. */
  function WrapIndex(t: int, n: int): (i: int)
    requires n > 0
    ensures 0 <= i < n
  {
    CppRem(n + CppRem(t, n), n)
  }

  lemma MulAtLeast(n: int, k: int)
    requires n > 0 && k >= 1
    ensures n * k >= n
  {
  }

  lemma MulAtMost(n: int, k: int)
    requires n > 0 && k <= -1
    ensures n * k <= -n
  {
  }

  /** Quotient and remainder are unique. */
  lemma DivModUnique(t: int, n: int, q: int, r: int)
    requires n > 0 && 0 <= r < n && t == q * n + r
    ensures t % n == r && t / n == q
  {
    var d, m := t / n, t % n;
    assert t == d * n + m;
    assert n * (q - d) == m - r;
    if q - d >= 1 { MulAtLeast(n, q - d); }
    if q - d <= -1 { MulAtMost(n, q - d); }
  }

  /** The wrap agrees with the Euclidean remainder for every `t`, negative
      ones included. */
  lemma WrapIsEuclidean(t: int, n: int)
    requires n > 0
    ensures WrapIndex(t, n) == t % n
  {
    if t >= 0 {
      DivModUnique(n + t % n, n, 1, t % n);
    } else {
      var q, a := (-t) % n, (-t) / n;
      assert -t == a * n + q;
      if q == 0 {
        DivModUnique(n, n, 1, 0);
        DivModUnique(t, n, -a, 0);
      } else {
        DivModUnique(n - q, n, 0, n - q);
        DivModUnique(t, n, -a - 1, n - q);
      }
    }
  }

  lemma WrapIdentity(t: int, n: int)
    requires 0 <= t < n
    ensures WrapIndex(t, n) == t
  {
    WrapIsEuclidean(t, n);
    DivModUnique(t, n, 0, t);
  }

  lemma Distributes(q: int, k: int, n: int)
    ensures (q + k) * n == q * n + k * n
  {
  }

  /** Shifting a coordinate by whole periods does not move the texel. */
  lemma WrapPeriodic(t: int, k: int, n: int)
    requires n > 0
    ensures WrapIndex(t + k * n, n) == WrapIndex(t, n)
  {
    WrapIsEuclidean(t, n);
    WrapIsEuclidean(t + k * n, n);
    var q, r := t / n, t % n;
    assert t == q * n + r;
    Distributes(q, k, n);
    DivModUnique(t + k * n, n, q + k, r);
  }

  predicate WellFormed(tex: Texture)
  {
    tex.width > 0 && tex.height > 0 && |tex.data| == tex.width * tex.height
  }

  /** The buffer position read for the truncated coordinates (x, y):
      the wrapped column and the wrapped row, row-major. */
  function TexelIndex(tex: Texture, x: int, y: int): (k: int)
    requires tex.width > 0 && tex.height > 0
    ensures 0 <= k < tex.width * tex.height
    ensures k % tex.width == WrapIndex(x, tex.width)
    ensures k / tex.width == WrapIndex(y, tex.height)
  {
    var px := WrapIndex(x, tex.width);
    var py := WrapIndex(y, tex.height);
    RowMajorBound(px, py, tex.width, tex.height);
    py * tex.width + px
  }

  lemma RowMajorBound(x: int, y: int, w: int, h: int)
    requires 0 <= x < w && 0 <= y < h
    ensures 0 <= y * w + x < w * h
    ensures (y * w + x) % w == x && (y * w + x) / w == y
  {
    MulAtLeast(w, h - y);
    assert w * (h - y) == w * h - y * w;
    assert 0 <= y * w;
    DivModUnique(y * w + x, w, y, x);
  }

  /** Texel coordinates already inside the texture are not moved. */
  lemma TexelIndexInside(tex: Texture, x: int, y: int)
    requires tex.width > 0 && tex.height > 0
    requires 0 <= x < tex.width && 0 <= y < tex.height
    ensures TexelIndex(tex, x, y) == y * tex.width + x
  {
    WrapIdentity(x, tex.width);
    WrapIdentity(y, tex.height);
  }

  /** `static_cast<int>` is defined only when the truncated value fits
      in a 32-bit `int`. */
  predicate IntCastDefined(x: real)
  {
    -0x8000_0000 <= Trunc(x) < 0x8000_0000
  }

  function SampleNearestRepeat(tex: Texture, u: real, v: real): (c: Vec3D)
    requires WellFormed(tex)
    requires IntCastDefined(u) && IntCastDefined(v)
    ensures c in tex.data
  {
    tex.data[TexelIndex(tex, Trunc(u), Trunc(v))]
  }
}

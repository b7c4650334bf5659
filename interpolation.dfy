/** The Interpolator: reading an image buffer and bilinear sampling at real-valued locations
    (`interpolateLin`, src/mosaic.cpp:53-72). An image is a 3-D buffer indexed (x, y, channel). */
module Interpolation {
  import opened Errors

  predicate InBounds(im: array3<real>, x: int, y: int, z: int)
  {
    0 <= x < im.Length0 && 0 <= y < im.Length1 && 0 <= z < im.Length2
  }

  /** The buffer's zero-fill accessor (`smartAccessor(x, y, z, false)`): the stored sample inside
      the buffer and 0 outside it. */
  function ZeroFill(im: array3<real>, x: int, y: int, z: int): real
    reads im
  {
    if InBounds(im, x, y, z) then im[x, y, z] else 0.0
  }

  /** The buffer's checked accessor (`operator()`): the stored sample, or a fault outside it. */
  function Checked(im: array3<real>, x: int, y: int, z: int): Option<real>
    reads im
  {
    if InBounds(im, x, y, z) then Some(im[x, y, z]) else None
  }

  function Min(a: real, b: real): real { if a <= b then a else b }
  function Max(a: real, b: real): real { if a <= b then b else a }

  /** The blend `a * (1 - t) + b * t` that the interpolator and both seam blends use. */
  function Lerp(a: real, b: real, t: real): real
  {
    a * (1.0 - t) + b * t
  }

  /** A blend weight strictly between 0 and 1. */
  type Weight = a: real | 0.0 < a < 1.0 witness 0.5

  /** The logistic function v -> 1 / (1 + exp(-v)); only its range (0, 1) is modelled, so
      `1 / (1 + exp(mid - i))` is `logistic(i - mid)`. */
  type Logistic = real -> Weight

  lemma ProductNonNegative(a: real, b: real)
    requires 0.0 <= a && 0.0 <= b
    ensures 0.0 <= a * b
  {
  }

  /** For a weight in [0, 1] the blend stays between its two ends. */
  lemma LerpBetween(a: real, b: real, t: real)
    requires 0.0 <= t <= 1.0
    ensures Min(a, b) <= Lerp(a, b, t) <= Max(a, b)
  {
    assert Lerp(a, b, t) == a + t * (b - a);
    assert Lerp(a, b, t) == b - (1.0 - t) * (b - a);
    if a <= b {
      ProductNonNegative(t, b - a);
      ProductNonNegative(1.0 - t, b - a);
    } else {
      ProductNonNegative(t, a - b);
      ProductNonNegative(1.0 - t, a - b);
    }
  }

  /** The smallest and largest of the four neighbours (x1, y1), (x2, y1), (x1, y2), (x2, y2)
      of (x, y), with x1 = floor(x), x2 = x1 + 1, y1 = floor(y), y2 = y1 + 1. */
  function NeighbourMin(im: array3<real>, x: real, y: real, z: int): real
    reads im
  {
    Min(Min(ZeroFill(im, x.Floor, y.Floor, z), ZeroFill(im, x.Floor + 1, y.Floor, z)),
        Min(ZeroFill(im, x.Floor, y.Floor + 1, z), ZeroFill(im, x.Floor + 1, y.Floor + 1, z)))
  }

  function NeighbourMax(im: array3<real>, x: real, y: real, z: int): real
    reads im
  {
    Max(Max(ZeroFill(im, x.Floor, y.Floor, z), ZeroFill(im, x.Floor + 1, y.Floor, z)),
        Max(ZeroFill(im, x.Floor, y.Floor + 1, z), ZeroFill(im, x.Floor + 1, y.Floor + 1, z)))
  }

  /** Bilinear interpolation with zero fill: blend the top and the bottom pair of neighbours
      along x with weight t = x - floor(x), then blend the two results along y with
      weight u = y - floor(y). The result is a convex combination of the four neighbours. */
  function InterpolateLin(im: array3<real>, x: real, y: real, z: int): (r: real)
    reads im
    ensures NeighbourMin(im, x, y, z) <= r <= NeighbourMax(im, x, y, z)
  {
    var x1 := x.Floor;
    var x2 := x.Floor + 1;
    var y1 := y.Floor;
    var t := x - x1 as real;
    var top := Lerp(ZeroFill(im, x1, y1, z), ZeroFill(im, x2, y1, z), t);
    var y2 := y.Floor + 1;
    var bottom := Lerp(ZeroFill(im, x1, y2, z), ZeroFill(im, x2, y2, z), t);
    var u := y - y1 as real;
    LerpBetween(ZeroFill(im, x1, y1, z), ZeroFill(im, x2, y1, z), t);
    LerpBetween(ZeroFill(im, x1, y2, z), ZeroFill(im, x2, y2, z), t);
    LerpBetween(top, bottom, u);
    Lerp(top, bottom, u)
  }

  /** At a pixel position the interpolator returns the stored sample exactly. */
  lemma InterpolateAtPixel(im: array3<real>, x: int, y: int, z: int)
    ensures InterpolateLin(im, x as real, y as real, z) == ZeroFill(im, x, y, z)
  {
    assert (x as real).Floor == x && (y as real).Floor == y;
  }
}

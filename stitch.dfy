/** The Pairwise Stitcher (`stitch`, `stitchWarpLeft`, `stitchWarpBoth`,
    src/mosaic.cpp:143-249): two images, one or both warped, composited on one canvas with a
    sigmoid seam blend where both contribute. */
module Stitch {
  import opened Errors
  import opened CppArith
  import opened Geometry
  import opened Interpolation
  import opened Homography
  import opened Warp

  /** The compositing rule of both stitchers: the sum of the two samples, replaced by the blend
      `v1 * (1 - alpha) + v2 * alpha` where both are nonzero. A zero sample counts as "no data",
      so the other sample passes through unchanged. */
  function Composite(v1: real, v2: real, alpha: Weight): (r: real)
    ensures v1 == 0.0 ==> r == v2
    ensures v2 == 0.0 ==> r == v1
    ensures v1 != 0.0 && v2 != 0.0 ==> Min(v1, v2) <= r <= Max(v1, v2)
  {
    if v1 != 0.0 && v2 != 0.0 then
      LerpBetween(v1, v2, alpha);
      Lerp(v1, v2, alpha)
    else
      v1 + v2
  }

  /** Swapping the two images and the weight's complement gives the same cell. */
  lemma CompositeSymmetric(v1: real, v2: real, alpha: Weight)
    ensures Composite(v1, v2, alpha) == Composite(v2, v1, 1.0 - alpha)
  {
  }

  /** In the overlap of two different samples the blend lies strictly between them. */
  lemma CompositeStrict(v1: real, v2: real, alpha: Weight)
    requires v1 != 0.0 && v2 != 0.0 && v1 != v2
    ensures Min(v1, v2) < Composite(v1, v2, alpha) < Max(v1, v2)
  {
    var r := Composite(v1, v2, alpha);
    assert r == v1 + alpha * (v2 - v1) == v2 + (1.0 - alpha) * (v1 - v2);
    if v1 < v2 {
      PositiveProduct(alpha, v2 - v1);
      PositiveProduct(1.0 - alpha, v2 - v1);
      assert v1 < r < v2;
    } else {
      PositiveProduct(alpha, v1 - v2);
      PositiveProduct(1.0 - alpha, v1 - v2);
      assert v2 < r < v1;
    }
  }

  lemma PositiveProduct(a: real, b: real)
    requires 0.0 < a && 0.0 < b
    ensures 0.0 < a * b
  {
  }

  /** Canvas size, offset of the second image's frame relative to the first, and the column
      where the seam blend passes 1/2. */
  datatype Layout = Layout(width: int, height: int, dx: real, dy: real, mid: real)

  /** The layout of `stitch`: image 1 warped by m onto the frame of image 2 (w2 x h2). */
  function LeftLayout(w1: int, h1: int, w2: int, h2: int, m: Mat3): Layout
    requires CornersDefined(w1, h1, m)
  {
    var b := TransformedBBox(w1, h1, m);
    var tx, ty := b.xmin, b.ymin;
    var overlapX1, overlapX2 := Trunc(-tx), Trunc(b.xmax - tx);
    Layout(Trunc(w2 as real - tx), if Trunc(b.ymax - b.ymin) >= h2 then Trunc(b.ymax - b.ymin) else h2,
           tx, ty, (overlapX1 + overlapX2) as real / 2.0)
  }

  /** The layout of `stitchWarpBoth`: both images warped onto the midpoint frame. Image 2 is read
      at row j + ty1, as the source writes it. */
  function BothLayout(w1: int, h1: int, m1: Mat3, w2: int, h2: int, m2: Mat3): Layout
    requires CornersDefined(w1, h1, m1) && CornersDefined(w2, h2, m2)
  {
    var b1, b2 := TransformedBBox(w1, h1, m1), TransformedBBox(w2, h2, m2);
    var tx1, ty1, tx2 := b1.xmin, b1.ymin, b2.xmin;
    var overlapX1, overlapX2 := Trunc(b2.xmin - tx1), Trunc(b1.xmax - tx1);
    Layout(Trunc(b2.xmax - b1.xmin), Trunc(Max(b1.ymax, b2.ymax) - Min(b1.ymin, b2.ymin)),
           tx1 - tx2, ty1, (overlapX1 + overlapX2) as real / 2.0)
  }

  /** Output cell (i, j, c) of the shared compositing loop: a1 read at (i, j), a2 at the
      truncated (i + dx, j + dy), both with zero fill, weight logistic(i - mid). */
  function BlendCell(a1: array3<real>, a2: array3<real>, dx: real, dy: real, mid: real,
                     logistic: Logistic, i: int, j: int, c: int): real
    reads a1, a2
  {
    Composite(ZeroFill(a1, i, j, c), ZeroFill(a2, Trunc(i as real + dx), Trunc(j as real + dy), c),
              logistic(i as real - mid))
  }

  /** `out` is the width x height x channels canvas whose every cell is a `BlendCell`. */
  predicate IsBlendOf(a1: array3<real>, a2: array3<real>, dx: real, dy: real, width: nat, height: nat,
                      channels: nat, mid: real, logistic: Logistic, out: array3<real>)
    reads a1, a2, out
  {
    && out.Length0 == width && out.Length1 == height && out.Length2 == channels
    && forall i, j, c :: 0 <= i < width && 0 <= j < height && 0 <= c < channels ==>
         out[i, j, c] == BlendCell(a1, a2, dx, dy, mid, logistic, i, j, c)
  }

  /** The compositing loop shared by `stitch` and `stitchWarpBoth`: fills a fresh
      width x height x channels canvas cell by cell. */
  method Blend(a1: array3<real>, a2: array3<real>, dx: real, dy: real, width: nat, height: nat,
               channels: nat, mid: real, logistic: Logistic) returns (out: array3<real>)
    ensures fresh(out)
    ensures IsBlendOf(a1, a2, dx, dy, width, height, channels, mid, logistic, out)
  {
    out := new real[width, height, channels];
    for i := 0 to width
      invariant forall a, b, c :: 0 <= a < i && 0 <= b < height && 0 <= c < channels ==>
        out[a, b, c] == BlendCell(a1, a2, dx, dy, mid, logistic, a, b, c)
    {
      for j := 0 to height
        invariant forall a, b, c :: 0 <= a < i && 0 <= b < height && 0 <= c < channels ==>
          out[a, b, c] == BlendCell(a1, a2, dx, dy, mid, logistic, a, b, c)
        invariant forall b, c :: 0 <= b < j && 0 <= c < channels ==>
          out[i, b, c] == BlendCell(a1, a2, dx, dy, mid, logistic, i, b, c)
      {
        for c := 0 to channels
          invariant forall a, b, c :: 0 <= a < i && 0 <= b < height && 0 <= c < channels ==>
            out[a, b, c] == BlendCell(a1, a2, dx, dy, mid, logistic, a, b, c)
          invariant forall b, c :: 0 <= b < j && 0 <= c < channels ==>
            out[i, b, c] == BlendCell(a1, a2, dx, dy, mid, logistic, i, b, c)
          invariant forall c' :: 0 <= c' < c ==>
            out[i, j, c'] == BlendCell(a1, a2, dx, dy, mid, logistic, i, j, c')
        {
          var val1 := ZeroFill(a1, i, j, c);
          var val2 := ZeroFill(a2, Trunc(i as real + dx), Trunc(j as real + dy), c);
          out[i, j, c] := val1 + val2;
          if val1 != 0.0 && val2 != 0.0 {
            var alpha := logistic(i as real - mid);
            out[i, j, c] := val1 * (1.0 - alpha) + val2 * alpha;
          }
        }
      }
    }
  }

  /** `out` is the `stitch` panorama of im1 warped by m (inverse hinv) and im2, on layout l. */
  predicate IsLeftStitch(im1: array3<real>, im2: array3<real>, m: Mat3, hinv: Mat3, l: Layout,
                         logistic: Logistic, out: array3<real>)
    requires WarpOk(im1.Length0, im1.Length1, m, hinv)
    reads im1, im2, out
  {
    && out.Length0 == l.width && out.Length1 == l.height && out.Length2 == im1.Length2
    && forall i, j, c :: 0 <= i < out.Length0 && 0 <= j < out.Length1 && 0 <= c < out.Length2 ==>
         out[i, j, c] == Composite(WarpedAt(im1, m, hinv, i, j, c),
                                   ZeroFill(im2, Trunc(i as real + l.dx), Trunc(j as real + l.dy), c),
                                   logistic(i as real - l.mid))
  }

  /** Compositing the warp result with im2 is the `stitch` panorama. */
  lemma LeftStitchOfBlend(im1: array3<real>, im2: array3<real>, m: Mat3, hinv: Mat3, l: Layout,
                          logistic: Logistic, outIm1: array3<real>, out: array3<real>)
    requires WarpOk(im1.Length0, im1.Length1, m, hinv) && IsWarpOf(im1, m, hinv, outIm1)
    requires l.width >= 0 && l.height >= 0
    requires IsBlendOf(outIm1, im2, l.dx, l.dy, l.width, l.height, im1.Length2, l.mid, logistic, out)
    ensures IsLeftStitch(im1, im2, m, hinv, l, logistic, out)
  {
    forall i, j, c | 0 <= i < out.Length0 && 0 <= j < out.Length1 && 0 <= c < out.Length2
      ensures out[i, j, c] == Composite(WarpedAt(im1, m, hinv, i, j, c),
                                        ZeroFill(im2, Trunc(i as real + l.dx), Trunc(j as real + l.dy), c),
                                        logistic(i as real - l.mid))
    {
      assert out[i, j, c] == BlendCell(outIm1, im2, l.dx, l.dy, l.mid, logistic, i, j, c);
      ZeroFillOfWarp(im1, m, hinv, outIm1, i, j, c);
    }
  }

  /** `stitch`: warps im1, sizes the canvas from its box and im2, and composites. */
  method Stitch(im1: array3<real>, im2: array3<real>, m: Mat3, hinv: Mat3, logistic: Logistic)
    returns (r: Result<array3<real>>)
    ensures r.Ok? <==> WarpOk(im1.Length0, im1.Length1, m, hinv)
                       && LeftLayout(im1.Length0, im1.Length1, im2.Length0, im2.Length1, m).width >= 0
    ensures r.Err? ==> r.error == if WarpOk(im1.Length0, im1.Length1, m, hinv) then NegativeCanvas
                                 else WarpFailure(im1.Length0, im1.Length1, m)
    ensures r.Ok? ==> IsLeftStitch(im1, im2, m, hinv, LeftLayout(im1.Length0, im1.Length1, im2.Length0, im2.Length1, m),
                                   logistic, r.value)
    ensures r.Ok? ==> fresh(r.value)
  {
    var warped := WarpImage(im1, m, hinv);
    if warped.Err? {
      return Err(warped.error);
    }
    var outIm1 := warped.value;
    var l := LeftLayout(im1.Length0, im1.Length1, im2.Length0, im2.Length1, m);
    if l.width < 0 {
      return Err(NegativeCanvas);
    }
    var out := Blend(outIm1, im2, l.dx, l.dy, l.width, l.height, im1.Length2, l.mid, logistic);
    LeftStitchOfBlend(im1, im2, m, hinv, l, logistic, outIm1, out);
    return Ok(out);
  }

  /** `stitchWarpLeft`: the size guard, the fitted homography, then `stitch`. */
  method StitchWarpLeft(im1: array3<real>, im2: array3<real>, p1: seq<Point>, p2: seq<Point>,
                        solve: Solver, invert: Mat3 -> Mat3, logistic: Logistic)
    returns (r: Result<array3<real>>)
    ensures r.Err? && r.error == MismatchedSize <==> !WellSized(p1, p2)
    ensures WellSized(p1, p2) ==>
      var m := Fit(p1, p2, solve);
      && (r.Ok? <==> WarpOk(im1.Length0, im1.Length1, m, invert(m))
                     && LeftLayout(im1.Length0, im1.Length1, im2.Length0, im2.Length1, m).width >= 0)
      && (r.Err? ==> r.error == if WarpOk(im1.Length0, im1.Length1, m, invert(m)) then NegativeCanvas
                                else WarpFailure(im1.Length0, im1.Length1, m))
      && (r.Ok? ==> IsLeftStitch(im1, im2, m, invert(m), LeftLayout(im1.Length0, im1.Length1, im2.Length0, im2.Length1, m),
                                 logistic, r.value))
    ensures r.Ok? ==> fresh(r.value)
  {
    if |p1| != |p2| || |p1| < 4 {
      return Err(MismatchedSize);
    }
    var fitted := ComputeHomography(p1, p2, solve);
    var m := fitted.value;
    r := Stitch(im1, im2, m, invert(m), logistic);
  }

  /** The midpoint of two correspondences with C++'s truncating `/ 2`. */
  function Midpoint(p: Point, q: Point): (m: Point)
    ensures 0 <= p.x + q.x ==> 0 <= p.x + q.x - 2 * m.x <= 1
    ensures p.x + q.x < 0 ==> -1 <= p.x + q.x - 2 * m.x <= 0
    ensures 0 <= p.y + q.y ==> 0 <= p.y + q.y - 2 * m.y <= 1
    ensures p.y + q.y < 0 ==> -1 <= p.y + q.y - 2 * m.y <= 0
  {
    Point(Quot(p.x + q.x, 2), Quot(p.y + q.y, 2))
  }

  /** Each coordinate of the midpoint lies between the two coordinates it averages. */
  lemma MidpointBetween(p: Point, q: Point)
    ensures var m := Midpoint(p, q);
            && (p.x <= m.x <= q.x || q.x <= m.x <= p.x)
            && (p.y <= m.y <= q.y || q.y <= m.y <= p.y)
  {
  }

  function Midpoints(p1: seq<Point>, p2: seq<Point>): seq<Point>
    requires |p1| <= |p2|
  {
    seq(|p1|, i requires 0 <= i < |p1| => Midpoint(p1[i], p2[i]))
  }

  /** The averaged point list of `stitchWarpBoth`, built one point at a time. */
  method MidpointList(p1: seq<Point>, p2: seq<Point>) returns (avg: seq<Point>)
    requires |p1| <= |p2|
    ensures |avg| == |p1|
    ensures forall i :: 0 <= i < |p1| ==> avg[i] == Midpoint(p1[i], p2[i])
  {
    avg := [];
    for i := 0 to |p1|
      invariant |avg| == i
      invariant forall k :: 0 <= k < i ==> avg[k] == Midpoint(p1[k], p2[k])
    {
      avg := avg + [Midpoint(p1[i], p2[i])];
    }
  }

  /** Both warps succeed and the shared canvas has no negative side. */
  predicate BothOk(im1: array3<real>, im2: array3<real>, m1: Mat3, hinv1: Mat3, m2: Mat3, hinv2: Mat3)
    reads im1, im2
  {
    && WarpOk(im1.Length0, im1.Length1, m1, hinv1)
    && WarpOk(im2.Length0, im2.Length1, m2, hinv2)
    && var l := BothLayout(im1.Length0, im1.Length1, m1, im2.Length0, im2.Length1, m2);
    && l.width >= 0 && l.height >= 0
  }

  /** `out` is the `stitchWarpBoth` panorama of both warped images, on layout l. */
  predicate IsBothStitch(im1: array3<real>, im2: array3<real>, m1: Mat3, hinv1: Mat3, m2: Mat3, hinv2: Mat3,
                         l: Layout, logistic: Logistic, out: array3<real>)
    requires WarpOk(im1.Length0, im1.Length1, m1, hinv1) && WarpOk(im2.Length0, im2.Length1, m2, hinv2)
    reads im1, im2, out
  {
    && out.Length0 == l.width && out.Length1 == l.height && out.Length2 == im1.Length2
    && forall i, j, c :: 0 <= i < out.Length0 && 0 <= j < out.Length1 && 0 <= c < out.Length2 ==>
         out[i, j, c] == Composite(WarpedAt(im1, m1, hinv1, i, j, c),
                                   WarpedAt(im2, m2, hinv2, Trunc(i as real + l.dx), Trunc(j as real + l.dy), c),
                                   logistic(i as real - l.mid))
  }

  /** One cell of `BothStitchOfBlend`: the blended buffers read back as the two warped images. */
  lemma BothCellOfBlend(im1: array3<real>, im2: array3<real>, m1: Mat3, hinv1: Mat3, m2: Mat3, hinv2: Mat3,
                        logistic: Logistic, outIm1: array3<real>, outIm2: array3<real>, l: Layout,
                        v: real, i: int, j: int, c: int)
    requires WarpOk(im1.Length0, im1.Length1, m1, hinv1) && IsWarpOf(im1, m1, hinv1, outIm1)
    requires WarpOk(im2.Length0, im2.Length1, m2, hinv2) && IsWarpOf(im2, m2, hinv2, outIm2)
    requires v == BlendCell(outIm1, outIm2, l.dx, l.dy, l.mid, logistic, i, j, c)
    ensures v == Composite(WarpedAt(im1, m1, hinv1, i, j, c),
                           WarpedAt(im2, m2, hinv2, Trunc(i as real + l.dx), Trunc(j as real + l.dy), c),
                           logistic(i as real - l.mid))
  {
    ZeroFillOfWarp(im1, m1, hinv1, outIm1, i, j, c);
    ZeroFillOfWarp(im2, m2, hinv2, outIm2, Trunc(i as real + l.dx), Trunc(j as real + l.dy), c);
  }

  /** Compositing the two warp results is the `stitchWarpBoth` panorama. */
  lemma BothStitchOfBlend(im1: array3<real>, im2: array3<real>, m1: Mat3, hinv1: Mat3, m2: Mat3, hinv2: Mat3,
                          l: Layout, logistic: Logistic, outIm1: array3<real>, outIm2: array3<real>,
                          out: array3<real>)
    requires WarpOk(im1.Length0, im1.Length1, m1, hinv1) && IsWarpOf(im1, m1, hinv1, outIm1)
    requires WarpOk(im2.Length0, im2.Length1, m2, hinv2) && IsWarpOf(im2, m2, hinv2, outIm2)
    requires l.width >= 0 && l.height >= 0
    requires IsBlendOf(outIm1, outIm2, l.dx, l.dy, l.width, l.height, im1.Length2, l.mid, logistic, out)
    ensures IsBothStitch(im1, im2, m1, hinv1, m2, hinv2, l, logistic, out)
  {
    forall i, j, c | 0 <= i < out.Length0 && 0 <= j < out.Length1 && 0 <= c < out.Length2
      ensures out[i, j, c] == Composite(WarpedAt(im1, m1, hinv1, i, j, c),
                                        WarpedAt(im2, m2, hinv2, Trunc(i as real + l.dx), Trunc(j as real + l.dy), c),
                                        logistic(i as real - l.mid))
    {
      BothCellOfBlend(im1, im2, m1, hinv1, m2, hinv2, logistic, outIm1, outIm2, l, out[i, j, c], i, j, c);
    }
  }

  /** `stitchWarpBoth`: the size guard, the midpoint frame, one fitted homography per image,
      both warps and the composite. */
  method StitchWarpBoth(im1: array3<real>, im2: array3<real>, p1: seq<Point>, p2: seq<Point>,
                        solve: Solver, invert: Mat3 -> Mat3, logistic: Logistic)
    returns (r: Result<array3<real>>)
    ensures r.Err? && r.error == MismatchedSize <==> !WellSized(p1, p2)
    ensures WellSized(p1, p2) ==>
      var avg := Midpoints(p1, p2);
      var m1, m2 := Fit(p1, avg, solve), Fit(p2, avg, solve);
      && (r.Ok? <==> BothOk(im1, im2, m1, invert(m1), m2, invert(m2)))
      && (r.Err? ==> r.error == if !WarpOk(im1.Length0, im1.Length1, m1, invert(m1)) then WarpFailure(im1.Length0, im1.Length1, m1)
                                else if !WarpOk(im2.Length0, im2.Length1, m2, invert(m2)) then WarpFailure(im2.Length0, im2.Length1, m2)
                                else NegativeCanvas)
      && (r.Ok? ==> IsBothStitch(im1, im2, m1, invert(m1), m2, invert(m2),
                                 BothLayout(im1.Length0, im1.Length1, m1, im2.Length0, im2.Length1, m2),
                                 logistic, r.value))
    ensures r.Ok? ==> fresh(r.value)
  {
    if |p1| != |p2| || |p1| < 4 {
      return Err(MismatchedSize);
    }
    var avg := MidpointList(p1, p2);
    assert avg == Midpoints(p1, p2);
    var fitted1 := ComputeHomography(p1, avg, solve);
    var fitted2 := ComputeHomography(p2, avg, solve);
    var m1, m2 := fitted1.value, fitted2.value;
    var hinv1, hinv2 := invert(m1), invert(m2);
    var warped1 := WarpImage(im1, m1, hinv1);
    if warped1.Err? {
      return Err(warped1.error);
    }
    var warped2 := WarpImage(im2, m2, hinv2);
    if warped2.Err? {
      return Err(warped2.error);
    }
    var outIm1, outIm2 := warped1.value, warped2.value;
    var l := BothLayout(im1.Length0, im1.Length1, m1, im2.Length0, im2.Length1, m2);
    if l.width < 0 || l.height < 0 {
      return Err(NegativeCanvas);
    }
    var out := Blend(outIm1, outIm2, l.dx, l.dy, l.width, l.height, im1.Length2, l.mid, logistic);
    BothStitchOfBlend(im1, im2, m1, hinv1, m2, hinv2, l, logistic, outIm1, outIm2, out);
    return Ok(out);
  }

  /** Where the two footprints never overlap (in every cell one contribution is zero) the
      stitched panorama is the plain sum of both, unblended. */
  lemma DisjointStitchIsSum(im1: array3<real>, im2: array3<real>, m: Mat3, hinv: Mat3, l: Layout,
                            logistic: Logistic, out: array3<real>, i: int, j: int, c: int)
    requires WarpOk(im1.Length0, im1.Length1, m, hinv)
    requires IsLeftStitch(im1, im2, m, hinv, l, logistic, out)
    requires 0 <= i < out.Length0 && 0 <= j < out.Length1 && 0 <= c < out.Length2
    requires WarpedAt(im1, m, hinv, i, j, c) == 0.0
             || ZeroFill(im2, Trunc(i as real + l.dx), Trunc(j as real + l.dy), c) == 0.0
    ensures out[i, j, c] == WarpedAt(im1, m, hinv, i, j, c)
                            + ZeroFill(im2, Trunc(i as real + l.dx), Trunc(j as real + l.dy), c)
  {
  }
}

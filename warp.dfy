/** The Bounding-Box Projector and the Planar Warper (`computeTransformedBBox`, `warpImage`,
    `rectifyImage`, src/mosaic.cpp:77-137). */
module Warp {
  import opened Errors
  import opened CppArith
  import opened Geometry
  import opened Interpolation
  import opened Homography

  /** The extent [xmin, xmax, ymin, ymax] of a transformed image. */
  datatype BBox = BBox(xmin: real, xmax: real, ymin: real, ymax: real)

  /** All four corners (0,0), (w,0), (0,h), (w,h) project to finite points. */
  predicate CornersDefined(w: int, h: int, m: Mat3)
  {
    && Projectable(m, 0.0, 0.0) && Projectable(m, w as real, 0.0)
    && Projectable(m, 0.0, h as real) && Projectable(m, w as real, h as real)
  }

  /** `computeTransformedBBox`: the four corners projected and dehomogenised, then an
      edge-wise minimum or maximum per side. */
  function TransformedBBox(w: int, h: int, m: Mat3): BBox
    requires CornersDefined(w, h, m)
  {
    var topLeft, topRight := Project(m, 0.0, 0.0), Project(m, w as real, 0.0);
    var bottomLeft, bottomRight := Project(m, 0.0, h as real), Project(m, w as real, h as real);
    BBox(Min(topLeft.x, bottomLeft.x), Max(topRight.x, bottomRight.x),
         Min(topLeft.y, topRight.y), Max(bottomLeft.y, bottomRight.y))
  }

  /** xmin and xmax are the least and the greatest x over the left and the right corners
      only, ymin and ymax the least and the greatest y over the top and the bottom corners only. */
  lemma BBoxEdgewise(w: int, h: int, m: Mat3)
    requires CornersDefined(w, h, m)
    ensures var b := TransformedBBox(w, h, m);
            var tl, tr := Project(m, 0.0, 0.0), Project(m, w as real, 0.0);
            var bl, br := Project(m, 0.0, h as real), Project(m, w as real, h as real);
            && b.xmin <= tl.x && b.xmin <= bl.x && (b.xmin == tl.x || b.xmin == bl.x)
            && tr.x <= b.xmax && br.x <= b.xmax && (b.xmax == tr.x || b.xmax == br.x)
            && b.ymin <= tl.y && b.ymin <= tr.y && (b.ymin == tl.y || b.ymin == tr.y)
            && bl.y <= b.ymax && br.y <= b.ymax && (b.ymax == bl.y || b.ymax == br.y)
  {
  }

  /** The identity keeps the extent of the image. */
  lemma IdentityBBox(w: int, h: int)
    ensures CornersDefined(w, h, Identity)
    ensures TransformedBBox(w, h, Identity) == BBox(0.0, w as real, 0.0, h as real)
  {
    ProjectIdentity(0.0, 0.0);
    ProjectIdentity(w as real, 0.0);
    ProjectIdentity(0.0, h as real);
    ProjectIdentity(w as real, h as real);
  }

  /** A translation of an image with non-negative sides shifts its extent. */
  lemma TranslationBBox(w: nat, h: nat, dx: real, dy: real)
    ensures CornersDefined(w, h, Translation(dx, dy))
    ensures TransformedBBox(w, h, Translation(dx, dy)) == BBox(dx, w as real + dx, dy, h as real + dy)
  {
    var m := Translation(dx, dy);
    ProjectTranslation(dx, dy, 0.0, 0.0);
    ProjectTranslation(dx, dy, w as real, 0.0);
    ProjectTranslation(dx, dy, 0.0, h as real);
    ProjectTranslation(dx, dy, w as real, h as real);
    var tl, tr := Project(m, 0.0, 0.0), Project(m, w as real, 0.0);
    var bl, br := Project(m, 0.0, h as real), Project(m, w as real, h as real);
    assert tl == Point2(dx, dy) && tr == Point2(w as real + dx, dy);
    assert bl == Point2(dx, h as real + dy) && br == Point2(w as real + dx, h as real + dy);
  }

  /** The mirror x -> -x. */
  const MirrorX := Mat3(Vec3(-1.0, 0.0, 0.0), Vec3(0.0, 1.0, 0.0), Vec3(0.0, 0.0, 1.0))

  lemma ProjectMirror(x: real, y: real)
    ensures Projectable(MirrorX, x, y) && Project(MirrorX, x, y) == Point2(-x, y)
  {
  }

  /** The box is edge-wise, not a global bound: under the mirror the right corners of a
      w x h image land at -w, to the left of xmin. */
  lemma EdgewiseNotGlobal(w: int, h: int)
    requires w > 0
    ensures CornersDefined(w, h, MirrorX)
    ensures TransformedBBox(w, h, MirrorX).xmin == 0.0
    ensures Project(MirrorX, w as real, 0.0).x < TransformedBBox(w, h, MirrorX).xmin
  {
    ProjectMirror(0.0, 0.0);
    ProjectMirror(w as real, 0.0);
    ProjectMirror(0.0, h as real);
    ProjectMirror(w as real, h as real);
    assert TransformedBBox(w, h, MirrorX).xmin == Min(0.0, 0.0);
  }

  /** Side lengths of the warped canvas, truncated as C++ casts them to `int`. */
  function CanvasWidth(b: BBox): int { Trunc(b.xmax - b.xmin) }
  function CanvasHeight(b: BBox): int { Trunc(b.ymax - b.ymin) }

  /** Destination pixel (i, j), offset by the canvas origin (tx, ty), maps back to a finite
      source point under the inverse homography. */
  predicate SampleDefined(hinv: Mat3, tx: real, ty: real, i: int, j: int)
  {
    Projectable(hinv, i as real + tx, j as real + ty)
  }

  /** Everything `warpImage` needs: finite corners, a canvas with positive sides and finite
      inverse images of all its pixels. */
  predicate WarpOk(w: int, h: int, m: Mat3, hinv: Mat3)
  {
    && CornersDefined(w, h, m)
    && var b := TransformedBBox(w, h, m);
    && CanvasWidth(b) > 0 && CanvasHeight(b) > 0
    && forall i, j :: 0 <= i < CanvasWidth(b) && 0 <= j < CanvasHeight(b) ==>
         SampleDefined(hinv, b.xmin, b.ymin, i, j)
  }

  /** The error a failed warp reports: BadHomography when the corners are finite but a canvas
      side is zero or negative (the "bad homography" condition), UndefinedProjection when a
      corner or a pixel's inverse image lies at infinity. */
  function WarpFailure(w: int, h: int, m: Mat3): Error
  {
    if !CornersDefined(w, h, m) then UndefinedProjection
    else
      var b := TransformedBBox(w, h, m);
      if CanvasWidth(b) <= 0 || CanvasHeight(b) <= 0 then BadHomography else UndefinedProjection
  }

  /** The value inverse warping gives destination pixel (i, j) in channel c: the source
      interpolated at the dehomogenised `hinv * (i + tx, j + ty, 1)`. */
  function WarpCell(im: array3<real>, hinv: Mat3, tx: real, ty: real, i: int, j: int, c: int): real
    requires SampleDefined(hinv, tx, ty, i, j)
    reads im
  {
    var p := Project(hinv, i as real + tx, j as real + ty);
    InterpolateLin(im, p.x, p.y, c)
  }

  /** The warped image read through its zero-fill accessor. */
  function WarpedAt(im: array3<real>, m: Mat3, hinv: Mat3, i: int, j: int, c: int): real
    requires WarpOk(im.Length0, im.Length1, m, hinv)
    reads im
  {
    var b := TransformedBBox(im.Length0, im.Length1, m);
    if 0 <= i < CanvasWidth(b) && 0 <= j < CanvasHeight(b) && 0 <= c < im.Length2
    then WarpCell(im, hinv, b.xmin, b.ymin, i, j, c)
    else 0.0
  }

  /** `out` is the inverse warp of `im`: its sides are those of the canvas and every cell holds
      the interpolated source sample. */
  predicate IsWarpOf(im: array3<real>, m: Mat3, hinv: Mat3, out: array3<real>)
    requires WarpOk(im.Length0, im.Length1, m, hinv)
    reads im, out
  {
    var b := TransformedBBox(im.Length0, im.Length1, m);
    && out.Length0 == CanvasWidth(b) && out.Length1 == CanvasHeight(b) && out.Length2 == im.Length2
    && forall i, j, c :: 0 <= i < out.Length0 && 0 <= j < out.Length1 && 0 <= c < out.Length2 ==>
         out[i, j, c] == WarpCell(im, hinv, b.xmin, b.ymin, i, j, c)
  }

  /** Reading a warp result through its zero-fill accessor gives the warped image. */
  lemma ZeroFillOfWarp(im: array3<real>, m: Mat3, hinv: Mat3, out: array3<real>, i: int, j: int, c: int)
    requires WarpOk(im.Length0, im.Length1, m, hinv) && IsWarpOf(im, m, hinv, out)
    ensures ZeroFill(out, i, j, c) == WarpedAt(im, m, hinv, i, j, c)
  {
  }

  /** The nested loops of `warpImage`: a fresh width x height canvas with the channels of im,
      every cell the interpolated source sample. */
  method Resample(im: array3<real>, hinv: Mat3, tx: real, ty: real, width: nat, height: nat)
    returns (out: array3<real>)
    requires forall i, j | 0 <= i < width && 0 <= j < height :: SampleDefined(hinv, tx, ty, i, j)
    ensures out.Length0 == width && out.Length1 == height && out.Length2 == im.Length2
    ensures forall a, b, c :: 0 <= a < width && 0 <= b < height && 0 <= c < im.Length2 ==>
      out[a, b, c] == WarpCell(im, hinv, tx, ty, a, b, c)
    ensures fresh(out)
  {
    var channels := im.Length2;
    out := new real[width, height, channels];
    for i := 0 to width
      invariant forall a, b, c :: 0 <= a < i && 0 <= b < height && 0 <= c < channels ==>
        out[a, b, c] == WarpCell(im, hinv, tx, ty, a, b, c)
    {
      for j := 0 to height
        invariant forall a, b, c :: 0 <= a < i && 0 <= b < height && 0 <= c < channels ==>
          out[a, b, c] == WarpCell(im, hinv, tx, ty, a, b, c)
        invariant forall b, c :: 0 <= b < j && 0 <= c < channels ==>
          out[i, b, c] == WarpCell(im, hinv, tx, ty, i, b, c)
      {
        for c := 0 to channels
          invariant forall a, b, c :: 0 <= a < i && 0 <= b < height && 0 <= c < channels ==>
            out[a, b, c] == WarpCell(im, hinv, tx, ty, a, b, c)
          invariant forall b, c :: 0 <= b < j && 0 <= c < channels ==>
            out[i, b, c] == WarpCell(im, hinv, tx, ty, i, b, c)
          invariant forall c' :: 0 <= c' < c ==> out[i, j, c'] == WarpCell(im, hinv, tx, ty, i, j, c')
        {
          out[i, j, c] := WarpCell(im, hinv, tx, ty, i, j, c);
        }
      }
    }
  }

  /** `warpImage` with the inverse homography supplied: every cell of a fresh canvas sized from
      the bounding box is assigned, once, by inverse warping. A canvas side of zero or less (the
      "bad homography" notice) and a point at infinity are reported as errors. */
  method WarpImage(im: array3<real>, m: Mat3, hinv: Mat3) returns (r: Result<array3<real>>)
    ensures r.Ok? <==> WarpOk(im.Length0, im.Length1, m, hinv)
    ensures r.Err? ==> r.error == WarpFailure(im.Length0, im.Length1, m)
    ensures r.Ok? ==> IsWarpOf(im, m, hinv, r.value)
    ensures r.Ok? ==> fresh(r.value)
  {
    if !CornersDefined(im.Length0, im.Length1, m) {
      return Err(UndefinedProjection);
    }
    var bbox := TransformedBBox(im.Length0, im.Length1, m);
    var tx, ty := bbox.xmin, bbox.ymin;
    var width, height := Trunc(bbox.xmax - bbox.xmin), Trunc(bbox.ymax - bbox.ymin);
    if width <= 0 || height <= 0 {
      return Err(BadHomography);
    }
    if !(forall i, j | 0 <= i < width && 0 <= j < height :: SampleDefined(hinv, tx, ty, i, j)) {
      return Err(UndefinedProjection);
    }
    var out := Resample(im, hinv, tx, ty, width, height);
    return Ok(out);
  }

  /** Warping by an integer translation reproduces the image: the canvas has the image's own
      sides, its origin undoes the shift, and every sample is read back at a pixel position
      (the identity is the translation by (0, 0)). */
  lemma TranslationWarp(im: array3<real>, dx: int, dy: int, i: int, j: int, c: int)
    requires im.Length0 > 0 && im.Length1 > 0
    ensures var m := Translation(dx as real, dy as real);
            && WarpOk(im.Length0, im.Length1, m, Translation(-dx as real, -dy as real))
            && CanvasWidth(TransformedBBox(im.Length0, im.Length1, m)) == im.Length0
            && CanvasHeight(TransformedBBox(im.Length0, im.Length1, m)) == im.Length1
            && WarpedAt(im, m, Translation(-dx as real, -dy as real), i, j, c) == ZeroFill(im, i, j, c)
  {
    var m, minv := Translation(dx as real, dy as real), Translation(-dx as real, -dy as real);
    TranslationBBox(im.Length0, im.Length1, dx as real, dy as real);
    var box := TransformedBBox(im.Length0, im.Length1, m);
    assert box.xmax - box.xmin == im.Length0 as real && box.ymax - box.ymin == im.Length1 as real;
    TruncOfInt(im.Length0);
    TruncOfInt(im.Length1);
    forall a, b | 0 <= a < im.Length0 && 0 <= b < im.Length1
      ensures SampleDefined(minv, box.xmin, box.ymin, a, b)
    {
      ProjectTranslation(-dx as real, -dy as real, a as real + box.xmin, b as real + box.ymin);
    }
    ProjectTranslation(-dx as real, -dy as real, i as real + box.xmin, j as real + box.ymin);
    InterpolateAtPixel(im, i, j, c);
  }

  /** `rectifyImage`: the size guard, then the fitted homography, then the warp. */
  method RectifyImage(im: array3<real>, p1: seq<Point>, p2: seq<Point>, solve: Solver, invert: Mat3 -> Mat3)
    returns (r: Result<array3<real>>)
    ensures r.Err? && r.error == MismatchedSize <==> !WellSized(p1, p2)
    ensures WellSized(p1, p2) ==>
      var m := Fit(p1, p2, solve);
      && (r.Ok? <==> WarpOk(im.Length0, im.Length1, m, invert(m)))
      && (r.Err? ==> r.error == WarpFailure(im.Length0, im.Length1, m))
      && (r.Ok? ==> IsWarpOf(im, m, invert(m), r.value))
    ensures r.Ok? ==> fresh(r.value)
  {
    if |p1| != |p2| || |p1| < 4 {
      return Err(MismatchedSize);
    }
    var fitted := ComputeHomography(p1, p2, solve);
    var m := fitted.value;
    r := WarpImage(im, m, invert(m));
  }
}

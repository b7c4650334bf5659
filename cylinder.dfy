/** The 360-degree stitcher (`calculateCircumference`, `stitchCylinder`, src/mosaic.cpp:329-428):
    images already warped onto a cylinder are laid side by side on a canvas whose width is the
    circumference, by a column sweep that walks a cursor (current image, local column) along the
    converted boundary list and blends near each seam. */
module Cylinder {
  import opened Errors
  import opened CppArith
  import opened Interpolation

  /** Left and right boundary of image i: entries 2i and 2i+1 of a boundary list. */
  function Left(b: seq<int>, i: nat): int
    requires 2 * i + 1 < |b|
  {
    b[2 * i]
  }

  function Right(b: seq<int>, i: nat): int
    requires 2 * i + 1 < |b|
  {
    b[2 * i + 1]
  }

  /** The sum of `b[i+1] - b[i]` over the pairs at even indices, added last pair first. */
  function PairSum(b: seq<int>): int
    requires |b| % 2 == 0
    decreases |b|
  {
    if |b| == 0 then 0 else PairSum(b[..|b| - 2]) + (b[|b| - 1] - b[|b| - 2])
  }

  lemma PairSumPrefix(b: seq<int>, i: nat)
    requires i % 2 == 0 && i + 2 <= |b|
    ensures PairSum(b[..i + 2]) == PairSum(b[..i]) + (b[i + 1] - b[i])
  {
    assert b[..i + 2][..i] == b[..i];
  }

  /** `calculateCircumference`: accumulates the pair widths front to back. */
  method CalculateCircumference(boundaries: seq<int>) returns (circumference: int)
    requires |boundaries| % 2 == 0
    ensures circumference == PairSum(boundaries)
  {
    circumference := 0;
    var i := 0;
    while i <= |boundaries| - 1
      invariant 0 <= i <= |boundaries| && i % 2 == 0
      invariant circumference == PairSum(boundaries[..i])
      decreases |boundaries| - i
    {
      PairSumPrefix(boundaries, i);
      circumference := circumference + (boundaries[i + 1] - boundaries[i]);
      i := i + 2;
    }
    assert boundaries[..i] == boundaries;
  }

  /** Two images of 50 columns each, meeting at column 50. */
  const TwoImages: seq<int> := [0, 50, 50, 100]

  lemma CircumferenceOfTwoImages()
    ensures PairSum(TwoImages) == 100
  {
    assert TwoImages[..2] == [0, 50];
    assert TwoImages[..2][..0] == [];
  }

  /** Each image starts where the previous one ends. */
  predicate Contiguous(b: seq<int>)
  {
    forall i: nat :: 0 < i < |b| / 2 ==> Right(b, i - 1) == Left(b, i)
  }

  /** A contiguous boundary list telescopes: the circumference is last minus first. */
  lemma {:induction false} Telescope(b: seq<int>)
    requires |b| % 2 == 0 && |b| >= 2 && Contiguous(b)
    ensures PairSum(b) == b[|b| - 1] - b[0]
  {
    if |b| > 2 {
      var p := b[..|b| - 2];
      assert Contiguous(p) by {
        forall i: nat | 0 < i < |p| / 2
          ensures Right(p, i - 1) == Left(p, i)
        {
          assert Right(b, i - 1) == Left(b, i);
        }
      }
      Telescope(p);
      var n := |b| / 2 - 1;
      assert Right(b, n - 1) == Left(b, n);
    }
  }

  /** Every boundary pair is in order, left not past right. */
  predicate PairsOrdered(b: seq<int>)
    requires |b| % 2 == 0
  {
    forall i: nat :: i < |b| / 2 ==> Left(b, i) <= Right(b, i)
  }

  lemma {:induction false} PairSumNonNegative(b: seq<int>)
    requires |b| % 2 == 0 && PairsOrdered(b)
    ensures PairSum(b) >= 0
  {
    if |b| > 0 {
      var p := b[..|b| - 2];
      assert PairsOrdered(p) by {
        forall i: nat | i < |p| / 2
          ensures Left(p, i) <= Right(p, i)
        {
          assert Left(b, i) <= Right(b, i);
        }
      }
      PairSumNonNegative(p);
      assert Left(b, |b| / 2 - 1) <= Right(b, |b| / 2 - 1);
    }
  }

  /** The sweep state `(currentImage, localX)`. */
  datatype Cursor = Cursor(image: nat, localX: int)

  predicate OnPair(nb: seq<int>, c: Cursor)
  {
    2 * c.image + 1 < |nb|
  }

  /** One column step: past the right boundary, move to the next image's left boundary; otherwise
      advance one column. Moving past the last pair has no next image (None). */
  function Advance(nb: seq<int>, c: Cursor): (r: Option<Cursor>)
    requires OnPair(nb, c)
    ensures r.Some? ==> OnPair(nb, r.value)
    ensures r.None? <==> c.localX > Right(nb, c.image) && 2 * c.image + 3 >= |nb|
  {
    if c.localX > Right(nb, c.image) then
      if 2 * c.image + 3 < |nb| then Some(Cursor(c.image + 1, Left(nb, c.image + 1))) else None
    else
      Some(Cursor(c.image, c.localX + 1))
  }

  /** The cursor after k steps from `(0, newBoundaries[0])`. */
  function State(nb: seq<int>, k: nat): (r: Option<Cursor>)
    requires |nb| >= 2
    ensures r.Some? ==> OnPair(nb, r.value)
  {
    if k == 0 then Some(Cursor(0, nb[0]))
    else
      var prev := State(nb, k - 1);
      if prev.None? then None else Advance(nb, prev.value)
  }

  /** The cursor that output column x is drawn from: the step comes first in each column. */
  function ColumnCursor(nb: seq<int>, x: nat): Option<Cursor>
    requires |nb| >= 2
  {
    State(nb, x + 1)
  }

  /** Each column step either moves one column right on the same image, or moves to the next
      image and resets to its left boundary. */
  lemma StepShape(nb: seq<int>, k: nat)
    requires |nb| >= 2 && State(nb, k + 1).Some?
    ensures State(nb, k).Some?
    ensures var c, d := State(nb, k).value, State(nb, k + 1).value;
            || (c.localX <= Right(nb, c.image) && d == Cursor(c.image, c.localX + 1))
            || (c.localX > Right(nb, c.image) && d == Cursor(c.image + 1, Left(nb, c.image + 1)))
  {
  }

  /** Once the sweep runs past the last image it stays past it. */
  lemma {:induction false} SomeBefore(nb: seq<int>, j: nat, k: nat)
    requires |nb| >= 2 && j <= k && State(nb, k).Some?
    ensures State(nb, j).Some?
  {
    if j < k {
      SomeBefore(nb, j, k - 1);
    }
  }

  /** With ordered pairs the cursor stays within its image's columns, at most one past the right
      boundary (the column at which it moves on). */
  lemma {:induction false} CursorWithinImage(nb: seq<int>, k: nat)
    requires |nb| >= 2 && |nb| % 2 == 0 && PairsOrdered(nb) && State(nb, k).Some?
    ensures var c := State(nb, k).value;
            Left(nb, c.image) <= c.localX <= Right(nb, c.image) + 1
  {
    if k == 0 {
      assert Left(nb, 0) <= Right(nb, 0);
    } else {
      CursorWithinImage(nb, k - 1);
      var c := State(nb, k - 1).value;
      if c.localX > Right(nb, c.image) {
        assert Left(nb, c.image + 1) <= Right(nb, c.image + 1);
      }
    }
  }

  /** Within one image the cursor advances one column per step. */
  lemma {:induction false} RunOnImage(nb: seq<int>, k: nat, c: Cursor, d: nat)
    requires |nb| >= 2 && State(nb, k) == Some(c) && c.localX + d <= Right(nb, c.image) + 1
    ensures State(nb, k + d) == Some(Cursor(c.image, c.localX + d))
  {
    if d > 0 {
      RunOnImage(nb, k, c, d - 1);
    }
  }

  /** The step count at which the sweep arrives at image i's left boundary. */
  function ImageStart(nb: seq<int>, i: nat): nat
    requires 2 * i + 1 < |nb| && |nb| % 2 == 0 && PairsOrdered(nb)
  {
    if i == 0 then 0
    else
      assert Left(nb, i - 1) <= Right(nb, i - 1);
      ImageStart(nb, i - 1) + (Right(nb, i - 1) - Left(nb, i - 1) + 2)
  }

  /** Image i is swept from its left boundary to one past its right boundary, starting at step
      ImageStart(i). */
  lemma {:induction false} StateOnImage(nb: seq<int>, i: nat, d: nat)
    requires 2 * i + 1 < |nb| && |nb| % 2 == 0 && PairsOrdered(nb)
    requires d <= Right(nb, i) + 1 - Left(nb, i)
    ensures State(nb, ImageStart(nb, i) + d) == Some(Cursor(i, Left(nb, i) + d))
    decreases i, 1
  {
    if i == 0 {
      RunOnImage(nb, 0, Cursor(0, nb[0]), d);
    } else {
      ArriveAtImage(nb, i);
      RunOnImage(nb, ImageStart(nb, i), Cursor(i, Left(nb, i)), d);
    }
  }

  /** One step past the end of image i-1 the sweep is at image i's left boundary. */
  lemma {:induction false} ArriveAtImage(nb: seq<int>, i: nat)
    requires 0 < i && 2 * i + 1 < |nb| && |nb| % 2 == 0 && PairsOrdered(nb)
    ensures State(nb, ImageStart(nb, i)) == Some(Cursor(i, Left(nb, i)))
    decreases i, 0
  {
    assert Left(nb, i - 1) <= Right(nb, i - 1);
    var w := Right(nb, i - 1) + 1 - Left(nb, i - 1);
    StateOnImage(nb, i - 1, w);
    var k := ImageStart(nb, i - 1) + w;
    var last := Cursor(i - 1, Left(nb, i - 1) + w);
    assert last.localX == Right(nb, i - 1) + 1;
    assert Advance(nb, last) == Some(Cursor(i, Left(nb, i)));
    assert State(nb, k + 1) == Some(Cursor(i, Left(nb, i)));
    assert ImageStart(nb, i) == ImageStart(nb, i - 1) + (Right(nb, i - 1) - Left(nb, i - 1) + 2);
  }

  lemma {:induction false} ImageStartSum(nb: seq<int>, i: nat)
    requires 2 * i + 1 < |nb| && |nb| % 2 == 0 && PairsOrdered(nb)
    ensures ImageStart(nb, i) == PairSum(nb[..2 * i]) + 2 * i
  {
    if i > 0 {
      ImageStartSum(nb, i - 1);
      PairSumPrefix(nb, 2 * (i - 1));
      assert nb[..2 * i] == nb[..2 * (i - 1) + 2];
    }
  }

  /** The sweep succeeds over `circ` columns: the canvas has no negative side and every column
      has a cursor. */
  predicate SweepOk(nb: seq<int>, circ: int)
    requires |nb| >= 2
  {
    circ >= 0 && forall x: nat :: x < circ ==> ColumnCursor(nb, x).Some?
  }

  /** The sweep covers `circ` columns exactly when the cursor after `circ` steps exists. */
  lemma SweepOkIff(nb: seq<int>, circ: nat)
    requires |nb| >= 2
    ensures SweepOk(nb, circ) <==> State(nb, circ).Some?
  {
    if State(nb, circ).Some? {
      forall x: nat | x < circ
        ensures ColumnCursor(nb, x).Some?
      {
        SomeBefore(nb, x + 1, circ);
      }
    } else if circ > 0 {
      assert ColumnCursor(nb, circ - 1).None?;
    }
  }

  /** Swept over its own circumference, an ordered boundary list never runs past its last image:
      the last image ends 2n - 1 steps after the circumference. */
  lemma SweepFitsOwnBoundaries(nb: seq<int>)
    requires |nb| >= 2 && |nb| % 2 == 0 && PairsOrdered(nb)
    ensures SweepOk(nb, PairSum(nb))
  {
    PairSumNonNegative(nb);
    var last := |nb| / 2 - 1;
    assert Left(nb, last) <= Right(nb, last);
    var w := Right(nb, last) + 1 - Left(nb, last);
    StateOnImage(nb, last, w);
    ImageStartSum(nb, last);
    assert PairSum(nb) == PairSum(nb[..2 * last]) + (Right(nb, last) - Left(nb, last));
    SomeBefore(nb, PairSum(nb), ImageStart(nb, last) + w);
    SweepOkIff(nb, PairSum(nb));
  }

  /** The two-image sweep: columns 0..50 come from image 0 at local column x+1, columns 51..102
      from image 1 at local column x-1. */
  lemma TwoImageColumns(x: nat)
    requires x <= 102
    ensures x <= 50 ==> ColumnCursor(TwoImages, x) == Some(Cursor(0, x + 1))
    ensures 51 <= x ==> ColumnCursor(TwoImages, x) == Some(Cursor(1, x - 1))
  {
    assert PairsOrdered(TwoImages) by {
      forall i: nat | i < |TwoImages| / 2
        ensures Left(TwoImages, i) <= Right(TwoImages, i)
      {
      }
    }
    assert ImageStart(TwoImages, 1) == 52;
    if x <= 50 {
      StateOnImage(TwoImages, 0, x + 1);
    } else {
      StateOnImage(TwoImages, 1, x - 51);
    }
  }

  /** The seam flags: within 20 columns of the left boundary (and not on the first image) blend
      with the previous image; else within 20 columns of the right boundary blend with the next;
      the forward guard is the one written in the source. */
  datatype Seam = BlendBack | BlendForward | NoBlend

  const SeamWidth := 20

  function SeamOf(nb: seq<int>, count: int, c: Cursor): Seam
    requires OnPair(nb, c)
  {
    if c.localX < Left(nb, c.image) + SeamWidth && c.image >= 1 then BlendBack
    else if c.localX > Right(nb, c.image) - SeamWidth && c.image <= count - 1 then BlendForward
    else NoBlend
  }

  /** Backward blending only happens past the first image, and takes precedence over forward. */
  lemma BackNeedsPrevious(nb: seq<int>, count: int, c: Cursor)
    requires OnPair(nb, c)
    ensures SeamOf(nb, count, c) == BlendBack ==> c.image >= 1
    ensures c.localX < Left(nb, c.image) + SeamWidth && c.image >= 1 ==> SeamOf(nb, count, c) == BlendBack
  {
  }

  /** The forward guard `currentImage <= images.size() - 1` holds for every image, so the last
      image blends forward too. */
  lemma ForwardGuardAlwaysTrue(nb: seq<int>, count: int, c: Cursor)
    requires OnPair(nb, c) && c.image < count
    requires !(c.localX < Left(nb, c.image) + SeamWidth && c.image >= 1)
    ensures SeamOf(nb, count, c) == BlendForward <==> c.localX > Right(nb, c.image) - SeamWidth
  {
  }

  /** The seam flags with the forward guard the sweep evidently intends: only if a next image
      exists. */
  function CorrectedSeamOf(nb: seq<int>, count: int, c: Cursor): Seam
    requires OnPair(nb, c)
  {
    if c.localX < Left(nb, c.image) + SeamWidth && c.image >= 1 then BlendBack
    else if c.localX > Right(nb, c.image) - SeamWidth && c.image < count - 1 then BlendForward
    else NoBlend
  }

  /** With the corrected guard a forward blend always has a next image and a next boundary pair,
      and every image but the last is flagged as before. */
  lemma CorrectedForwardHasNext(nb: seq<int>, count: int, c: Cursor)
    requires OnPair(nb, c) && |nb| == 2 * count
    ensures CorrectedSeamOf(nb, count, c) == BlendForward ==> c.image + 1 < count && OnPair(nb, Cursor(c.image + 1, 0))
    ensures c.image < count - 1 ==> CorrectedSeamOf(nb, count, c) == SeamOf(nb, count, c)
  {
  }

  /** `warped[k](x, y, z)`: None when k names no image or the pixel is outside it. */
  function Sample(warped: seq<array3<real>>, k: int, x: int, y: int, z: int): Option<real>
    reads warped
  {
    if 0 <= k < |warped| then Checked(warped[k], x, y, z) else None
  }

  /** A seam cell is written only if both samples exist and are nonzero, with the weighted
      blend; then it lies between them. */
  function SeamBlend(v1: Option<real>, v2: Option<real>, alpha: Weight): (r: Option<real>)
    ensures r.Some? <==> v1.Some? && v2.Some? && v1.value != 0.0 && v2.value != 0.0
    ensures r.Some? ==> Min(v1.value, v2.value) <= r.value <= Max(v1.value, v2.value)
  {
    if v1.Some? && v2.Some? && v1.value != 0.0 && v2.value != 0.0 then
      LerpBetween(v1.value, v2.value, alpha);
      Some(Lerp(v1.value, v2.value, alpha))
    else
      None
  }

  /** The value one pixel of the sweep writes at source row yy, or None where nothing is
      written (a faulting read, or a seam cell without two nonzero samples). The weight
      `1 / (1 + exp(diff))` is `logistic(-diff)`. */
  function CellWrite(warped: seq<array3<real>>, nb: seq<int>, seam: Seam, c: Cursor, yy: int, z: int,
                     logistic: Logistic): Option<real>
    requires OnPair(nb, c) && (seam == BlendBack ==> c.image >= 1)
    reads warped
  {
    match seam
    case BlendBack =>
      var diff := c.localX - Left(nb, c.image);
      SeamBlend(Sample(warped, c.image, c.localX, yy, z),
                Sample(warped, c.image - 1, Right(nb, c.image - 1) + diff, yy, z),
                logistic(-diff as real))
    case BlendForward =>
      var diff := Right(nb, c.image) - c.localX;
      if 2 * c.image + 2 < |nb| then
        SeamBlend(Sample(warped, c.image, c.localX, yy, z),
                  Sample(warped, c.image + 1, nb[2 * c.image + 2] - diff, yy, z),
                  logistic(-diff as real))
      else
        None
    case NoBlend =>
      Sample(warped, c.image, c.localX, yy, z)
  }

  function Written(w: Option<real>, prior: real): real
  {
    if w.Some? then w.value else prior
  }

  /** The blank band above and below: `floor((circumference / 3 - height) / 2)`. */
  function Offset(circ: int, imageHeight: int): int
  {
    Quot(Quot(circ, 3) - imageHeight, 2)
  }

  /** Output cell (x, y, z) of the panorama over `circ` columns: written by the sweep inside the
      band of rows [offset, circ/3 - offset), zero everywhere else. */
  function CylinderCell(warped: seq<array3<real>>, nb: seq<int>, circ: int, logistic: Logistic,
                        x: nat, y: int, z: int): real
    requires |warped| >= 1 && |nb| >= 2 && ColumnCursor(nb, x).Some?
    reads warped
  {
    var off := Offset(circ, warped[0].Length1);
    var c := ColumnCursor(nb, x).value;
    if off <= y < Quot(circ, 3) - off then
      Written(CellWrite(warped, nb, SeamOf(nb, |warped|, c), c, y - off, z, logistic), 0.0)
    else
      0.0
  }

  /** `out` is the `stitchCylinder` panorama over `circ` columns. */
  predicate IsCylinderOf(warped: seq<array3<real>>, nb: seq<int>, circ: int, logistic: Logistic,
                         out: array3<real>)
    requires |warped| >= 1 && |nb| >= 2 && SweepOk(nb, circ)
    reads warped, out
  {
    && out.Length0 == circ && out.Length1 == Quot(circ, 3) && out.Length2 == warped[0].Length2
    && forall x: nat, y, z :: x < out.Length0 && 0 <= y < out.Length1 && 0 <= z < out.Length2 ==>
         out[x, y, z] == CylinderCell(warped, nb, circ, logistic, x, y, z)
  }

  /** The row and depth loops of one sweep column: writes column x for the rows of the band
      that lie on the canvas. */
  method FillColumn(result: array3<real>, x: nat, warped: seq<array3<real>>, nb: seq<int>, c: Cursor,
                    seam: Seam, offset: int, logistic: Logistic)
    requires x < result.Length0 && OnPair(nb, c) && (seam == BlendBack ==> c.image >= 1)
    requires forall k :: 0 <= k < |warped| ==> warped[k] != result
    modifies result
    ensures forall a, b, z :: 0 <= a < result.Length0 && 0 <= b < result.Length1 && 0 <= z < result.Length2 ==>
      result[a, b, z] == if a == x && offset <= b < result.Length1 - offset
                         then Written(CellWrite(warped, nb, seam, c, b - offset, z, logistic), old(result[a, b, z]))
                         else old(result[a, b, z])
  {
    var y := offset;
    while y < result.Length1 - offset
      invariant offset <= y
      invariant forall a, b, z :: 0 <= a < result.Length0 && 0 <= b < result.Length1 && 0 <= z < result.Length2 ==>
        result[a, b, z] == if a == x && offset <= b < y && b < result.Length1 - offset
                           then Written(CellWrite(warped, nb, seam, c, b - offset, z, logistic), old(result[a, b, z]))
                           else old(result[a, b, z])
      decreases result.Length1 - offset - y
    {
      if 0 <= y < result.Length1 {
        for z := 0 to result.Length2
          invariant forall a, b, z' :: 0 <= a < result.Length0 && 0 <= b < result.Length1 && 0 <= z' < result.Length2 ==>
            result[a, b, z'] == if a == x && offset <= b < y && b < result.Length1 - offset
                                then Written(CellWrite(warped, nb, seam, c, b - offset, z', logistic), old(result[a, b, z']))
                                else if a == x && b == y && z' < z
                                then Written(CellWrite(warped, nb, seam, c, b - offset, z', logistic), old(result[a, b, z']))
                                else old(result[a, b, z'])
        {
          var w := CellWrite(warped, nb, seam, c, y - offset, z, logistic);
          if w.Some? {
            result[x, y, z] := w.value;
          }
        }
      }
      y := y + 1;
    }
  }

  /** Columns before x hold the panorama; the rest are still zero. */
  predicate ColumnsDone(result: array3<real>, warped: seq<array3<real>>, nb: seq<int>, circ: int,
                        logistic: Logistic, x: nat)
    requires |warped| >= 1 && |nb| >= 2
    requires forall a: nat :: a < x ==> ColumnCursor(nb, a).Some?
    reads result, warped
  {
    forall a: nat, b, z :: a < result.Length0 && 0 <= b < result.Length1 && 0 <= z < result.Length2 ==>
      result[a, b, z] == if a < x then CylinderCell(warped, nb, circ, logistic, a, b, z) else 0.0
  }

  /** One iteration of the sweep after the cursor step: flags the seam for cursor c and fills
      column x. */
  method SweepColumn(result: array3<real>, x: nat, warped: seq<array3<real>>, nb: seq<int>, circ: int,
                     offset: int, c: Cursor, logistic: Logistic)
    requires |warped| >= 1 && |nb| >= 2 && x < result.Length0 && result.Length1 == Quot(circ, 3)
    requires offset == Offset(circ, warped[0].Length1)
    requires forall k :: 0 <= k < |warped| ==> warped[k] != result
    requires forall a: nat :: a < x ==> ColumnCursor(nb, a).Some?
    requires ColumnCursor(nb, x) == Some(c)
    requires ColumnsDone(result, warped, nb, circ, logistic, x)
    modifies result
    ensures forall a: nat :: a < x + 1 ==> ColumnCursor(nb, a).Some?
    ensures ColumnsDone(result, warped, nb, circ, logistic, x + 1)
  {
    FillColumn(result, x, warped, nb, c, SeamOf(nb, |warped|, c), offset, logistic);
  }

  /** `stitchCylinder` given the warped images and the converted boundaries. The canvas is
      circumference x circumference/3; the sweep runs one column at a time. */
  method StitchCylinder(warped: seq<array3<real>>, boundaries: seq<int>, newBoundaries: seq<int>,
                        logistic: Logistic) returns (r: Result<array3<real>>)
    requires |warped| >= 1 && |boundaries| % 2 == 0 && |newBoundaries| == 2 * |warped|
    ensures r.Ok? <==> SweepOk(newBoundaries, PairSum(boundaries))
    ensures r.Err? ==> r.error == (if PairSum(boundaries) < 0 then NegativeCanvas else RanPastLastImage)
    ensures r.Ok? ==> IsCylinderOf(warped, newBoundaries, PairSum(boundaries), logistic, r.value)
    ensures r.Ok? ==> fresh(r.value)
  {
    var circumference := CalculateCircumference(boundaries);
    if circumference < 0 {
      return Err(NegativeCanvas);
    }
    var height := Quot(circumference, 3);
    var result := new real[circumference, height, warped[0].Length2]((_, _, _) => 0.0);
    assert forall k :: 0 <= k < |warped| ==> warped[k] != result;
    var currentImage: nat, localX := 0, newBoundaries[0];
    var offset := Quot(height - warped[0].Length1, 2);
    for x := 0 to circumference
      invariant forall k :: 0 <= k < |warped| ==> warped[k] != result
      invariant State(newBoundaries, x) == Some(Cursor(currentImage, localX))
      invariant forall a: nat :: a < x ==> ColumnCursor(newBoundaries, a).Some?
      invariant result.Length0 == circumference && result.Length1 == height && result.Length2 == warped[0].Length2
      invariant ColumnsDone(result, warped, newBoundaries, circumference, logistic, x)
    {
      if localX > newBoundaries[currentImage * 2 + 1] {
        if currentImage * 2 + 3 >= |newBoundaries| {
          assert ColumnCursor(newBoundaries, x).None?;
          return Err(RanPastLastImage);
        }
        currentImage := currentImage + 1;
        localX := newBoundaries[currentImage * 2];
      } else {
        localX := localX + 1;
      }
      SweepColumn(result, x, warped, newBoundaries, circumference, offset, Cursor(currentImage, localX), logistic);
    }
    return Ok(result);
  }

  /** Cells outside any seam copy the current image's pixel. */
  lemma NoBlendCopies(warped: seq<array3<real>>, nb: seq<int>, circ: int, logistic: Logistic,
                      out: array3<real>, x: nat, y: int, z: int)
    requires |warped| >= 1 && |nb| >= 2 && SweepOk(nb, circ) && IsCylinderOf(warped, nb, circ, logistic, out)
    requires x < out.Length0 && 0 <= y < out.Length1 && 0 <= z < out.Length2
    requires var off := Offset(circ, warped[0].Length1); off <= y < Quot(circ, 3) - off
    requires var c := ColumnCursor(nb, x).value;
             SeamOf(nb, |warped|, c) == NoBlend && c.image < |warped|
             && InBounds(warped[c.image], c.localX, y - Offset(circ, warped[0].Length1), z)
    ensures var c := ColumnCursor(nb, x).value;
            out[x, y, z] == warped[c.image][c.localX, y - Offset(circ, warped[0].Length1), z]
  {
  }

  /** On the two-image layout the last 18 columns (82..99) of the panorama stay black: they are
      flagged for a forward blend with an image that does not exist. */
  lemma LastImageTailBlack(warped: seq<array3<real>>, logistic: Logistic, x: nat, y: int, z: int)
    requires |warped| == 2 && 82 <= x < 100
    ensures ColumnCursor(TwoImages, x).Some?
    ensures CylinderCell(warped, TwoImages, 100, logistic, x, y, z) == 0.0
  {
    TwoImageColumns(x);
  }

  /** With the corrected forward guard those columns copy the last image instead. */
  lemma CorrectedTailCopies(warped: seq<array3<real>>, logistic: Logistic, x: nat, yy: int, z: int)
    requires |warped| == 2 && 82 <= x < 100
    ensures ColumnCursor(TwoImages, x) == Some(Cursor(1, x - 1))
    ensures CorrectedSeamOf(TwoImages, 2, Cursor(1, x - 1)) == NoBlend
    ensures CellWrite(warped, TwoImages, NoBlend, Cursor(1, x - 1), yy, z, logistic) == Checked(warped[1], x - 1, yy, z)
  {
    TwoImageColumns(x);
  }
}

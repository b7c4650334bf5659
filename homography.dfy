/** The Homography Solver (`computeHomography`, src/mosaic.cpp:16-50): the size guard, the
    least-squares system A h = b assembled from integer correspondences, and the packing of the
    8 solved coefficients into a 3x3 matrix whose bottom-right entry is 1. The QR solve itself
    is a parameter. */
module Homography {
  import opened Errors
  import opened Geometry

  /** An integer pixel correspondence coordinate (x, y). */
  datatype Point = Point(x: int, y: int)

  /** The guard of `computeHomography`, `rectifyImage`, `stitchWarpLeft` and `stitchWarpBoth`:
      equally many points in both lists and at least 4 of them. */
  predicate WellSized(p1: seq<Point>, p2: seq<Point>)
  {
    |p1| == |p2| && |p1| >= 4
  }

  /** The 8 unknowns h0..h7 of the homography. */
  type Coefficients = h: seq<real> | |h| == 8 witness [0.0, 0.0, 0.0, 0.0, 0.0, 0.0, 0.0, 0.0]

  /** A least-squares solver for A h = b (Eigen's column-pivoting Householder QR). */
  type Solver = (seq<seq<real>>, seq<real>) -> Coefficients

  /** Row 2i of A for the correspondence p -> q: [x, y, 1, 0, 0, 0, -x*x', -y*x']. */
  function RowX(p: Point, q: Point): seq<real>
  {
    [p.x as real, p.y as real, 1.0, 0.0, 0.0, 0.0, (-p.x * q.x) as real, (-p.y * q.x) as real]
  }

  /** Row 2i+1 of A as the source writes it: [0, 0, 0, x', y', 1, -x*y', -y*y'].
      Columns 3 and 4 hold the target point (x', y'), not the source point (x, y). */
  function RowY(p: Point, q: Point): seq<real>
  {
    [0.0, 0.0, 0.0, q.x as real, q.y as real, 1.0, (-p.x * q.y) as real, (-p.y * q.y) as real]
  }

  /** Row k of A: even rows encode x', odd rows y', of correspondence k / 2. */
  function Row(p1: seq<Point>, p2: seq<Point>, k: int): seq<real>
    requires |p1| <= |p2| && 0 <= k < 2 * |p1|
  {
    if k % 2 == 0 then RowX(p1[k / 2], p2[k / 2]) else RowY(p1[k / 2], p2[k / 2])
  }

  /** Entry k of b: the target coordinate that row k of A should reproduce. */
  function Target(p1: seq<Point>, p2: seq<Point>, k: int): real
    requires |p1| <= |p2| && 0 <= k < 2 * |p1|
  {
    if k % 2 == 0 then p2[k / 2].x as real else p2[k / 2].y as real
  }

  function SystemMatrix(p1: seq<Point>, p2: seq<Point>): seq<seq<real>>
    requires |p1| <= |p2|
  {
    seq(2 * |p1|, k requires 0 <= k < 2 * |p1| => Row(p1, p2, k))
  }

  function SystemTarget(p1: seq<Point>, p2: seq<Point>): seq<real>
    requires |p1| <= |p2|
  {
    seq(2 * |p1|, k requires 0 <= k < 2 * |p1| => Target(p1, p2, k))
  }

  /** H laid out row-major from h, with H(2,2) = 1. */
  function Pack(h: Coefficients): Mat3
  {
    Mat3(Vec3(h[0], h[1], h[2]), Vec3(h[3], h[4], h[5]), Vec3(h[6], h[7], 1.0))
  }

  /** The 8 free entries of H in row-major order. */
  function Unpack(m: Mat3): Coefficients
  {
    [m.r0.x, m.r0.y, m.r0.w, m.r1.x, m.r1.y, m.r1.w, m.r2.x, m.r2.y]
  }

  lemma PackRoundTrip(h: Coefficients)
    ensures Unpack(Pack(h)) == h
    ensures Pack(h).r2.w == 1.0
  {
  }

  lemma UnpackRoundTrip(m: Mat3)
    requires m.r2.w == 1.0
    ensures Pack(Unpack(m)) == m
  {
  }

  /** The homography that `computeHomography` returns for a well-sized correspondence set. */
  function Fit(p1: seq<Point>, p2: seq<Point>, solve: Solver): Mat3
    requires |p1| <= |p2|
  {
    Pack(solve(SystemMatrix(p1, p2), SystemTarget(p1, p2)))
  }

  /** Writes the x'-row 2i of A and entry 2i of b for the correspondence p -> q. */
  method FillRowX(a: array2<real>, b: array<real>, i: nat, p: Point, q: Point)
    requires a.Length1 == 8 && 2 * i < a.Length0 && a.Length0 == b.Length
    requires forall c :: 0 <= c < 8 ==> a[2 * i, c] == 0.0
    modifies a, b
    ensures forall c :: 0 <= c < 8 ==> a[2 * i, c] == RowX(p, q)[c]
    ensures forall k, c :: 0 <= k < a.Length0 && k != 2 * i && 0 <= c < 8 ==> a[k, c] == old(a[k, c])
    ensures b[2 * i] == q.x as real
    ensures forall k :: 0 <= k < b.Length && k != 2 * i ==> b[k] == old(b[k])
  {
    a[2 * i, 0] := p.x as real;
    a[2 * i, 1] := p.y as real;
    a[2 * i, 2] := 1.0;
    a[2 * i, 6] := (-p.x * q.x) as real;
    a[2 * i, 7] := (-p.y * q.x) as real;
    b[2 * i] := q.x as real;
  }

  /** Writes the y'-row k of A and entry k of b, as the source does. */
  method FillRowY(a: array2<real>, b: array<real>, k: nat, p: Point, q: Point)
    requires a.Length1 == 8 && k < a.Length0 && a.Length0 == b.Length
    requires forall c :: 0 <= c < 8 ==> a[k, c] == 0.0
    modifies a, b
    ensures forall c :: 0 <= c < 8 ==> a[k, c] == RowY(p, q)[c]
    ensures forall k', c :: 0 <= k' < a.Length0 && k' != k && 0 <= c < 8 ==> a[k', c] == old(a[k', c])
    ensures b[k] == q.y as real
    ensures forall k' :: 0 <= k' < b.Length && k' != k ==> b[k'] == old(b[k'])
  {
    a[k, 3] := q.x as real;
    a[k, 4] := q.y as real;
    a[k, 5] := 1.0;
    a[k, 6] := (-p.x * q.y) as real;
    a[k, 7] := (-p.y * q.y) as real;
    b[k] := q.y as real;
  }

  /** Writes both rows of correspondence i, and their entries of b. */
  method FillPair(a: array2<real>, b: array<real>, p1: seq<Point>, p2: seq<Point>, i: nat)
    requires |p1| <= |p2| && i < |p1|
    requires a.Length0 == 2 * |p1| && a.Length1 == 8 && b.Length == 2 * |p1|
    requires forall k, c :: 2 * i <= k < 2 * i + 2 && 0 <= c < 8 ==> a[k, c] == 0.0
    modifies a, b
    ensures forall k, c :: 2 * i <= k < 2 * i + 2 && 0 <= c < 8 ==> a[k, c] == Row(p1, p2, k)[c]
    ensures forall k, c :: 0 <= k < a.Length0 && (k < 2 * i || 2 * i + 2 <= k) && 0 <= c < 8 ==> a[k, c] == old(a[k, c])
    ensures forall k :: 2 * i <= k < 2 * i + 2 ==> b[k] == Target(p1, p2, k)
    ensures forall k :: 0 <= k < b.Length && (k < 2 * i || 2 * i + 2 <= k) ==> b[k] == old(b[k])
  {
    var rowX, rowY := Row(p1, p2, 2 * i), Row(p1, p2, 2 * i + 1);
    assert rowX == RowX(p1[i], p2[i]) && rowY == RowY(p1[i], p2[i]);
    FillRowX(a, b, i, p1[i], p2[i]);
    assert forall c :: 0 <= c < 8 ==> a[2 * i, c] == rowX[c];
    FillRowY(a, b, 2 * i + 1, p1[i], p2[i]);
    assert forall c :: 0 <= c < 8 ==> a[2 * i, c] == rowX[c] && a[2 * i + 1, c] == rowY[c];
  }

  /** Fills the zero-initialised 2n x 8 matrix A and the 2n vector b, two rows per
      correspondence. */
  method AssembleSystem(p1: seq<Point>, p2: seq<Point>) returns (a: array2<real>, b: array<real>)
    requires |p1| <= |p2|
    ensures a.Length0 == 2 * |p1| && a.Length1 == 8 && b.Length == 2 * |p1|
    ensures forall k, c :: 0 <= k < a.Length0 && 0 <= c < 8 ==> a[k, c] == Row(p1, p2, k)[c]
    ensures b[..] == SystemTarget(p1, p2)
    ensures fresh(a) && fresh(b)
  {
    var n := |p1|;
    a := new real[2 * n, 8]((k, c) => 0.0);
    b := new real[2 * n];
    var i := 0;
    while i < n
      invariant 0 <= i <= n
      invariant forall k, c :: 0 <= k < 2 * i && 0 <= c < 8 ==> a[k, c] == Row(p1, p2, k)[c]
      invariant forall k, c :: 2 * i <= k < 2 * n && 0 <= c < 8 ==> a[k, c] == 0.0
      invariant forall k :: 0 <= k < 2 * i ==> b[k] == Target(p1, p2, k)
    {
      FillPair(a, b, p1, p2, i);
      i := i + 1;
    }
  }

  /** `computeHomography`: rejects a mismatched or too small correspondence set, and otherwise
      returns the packed least-squares solution of the assembled system. */
  method ComputeHomography(p1: seq<Point>, p2: seq<Point>, solve: Solver) returns (r: Result<Mat3>)
    ensures r.Err? <==> !WellSized(p1, p2)
    ensures r.Err? ==> r.error == MismatchedSize
    ensures r.Ok? ==> r.value == Fit(p1, p2, solve) && r.value.r2.w == 1.0
  {
    if |p1| != |p2| || |p1| < 4 {
      return Err(MismatchedSize);
    }
    var a, b := AssembleSystem(p1, p2);
    var rows := seq(a.Length0, k requires 0 <= k < a.Length0 reads a =>
                  seq(8, c requires 0 <= c < 8 reads a => a[k, c]));
    forall k | 0 <= k < 2 * |p1|
      ensures rows[k] == SystemMatrix(p1, p2)[k]
    {
      assert forall c | 0 <= c < 8 :: rows[k][c] == Row(p1, p2, k)[c];
    }
    assert rows == SystemMatrix(p1, p2);
    var h := solve(rows, b[..]);
    r := Ok(Pack(h));
  }

  /** Row `row` applied to the coefficient vector h. */
  function Dot8(row: seq<real>, h: Coefficients): real
    requires |row| == 8
  {
    row[0] * h[0] + row[1] * h[1] + row[2] * h[2] + row[3] * h[3]
    + row[4] * h[4] + row[5] * h[5] + row[6] * h[6] + row[7] * h[7]
  }

  /** h solves every equation of the system exactly. */
  predicate Solves(a: seq<seq<real>>, b: seq<real>, h: Coefficients)
  {
    |a| == |b| && forall k :: 0 <= k < |a| ==> |a[k]| == 8 && Dot8(a[k], h) == b[k]
  }

  lemma CastProduct(a: int, b: int)
    ensures (a * b) as real == a as real * b as real
  {
  }

  /** Row 2i is the linearised x'-equation: it holds exactly when
      x' * (h6 x + h7 y + 1) == h0 x + h1 y + h2. */
  lemma RowXEncodesProjection(p: Point, q: Point, h: Coefficients)
    ensures var v := Apply(Pack(h), Homogeneous(p.x as real, p.y as real));
            Dot8(RowX(p, q), h) == q.x as real <==> q.x as real * v.w == v.x
  {
    CastProduct(-p.x, q.x);
    CastProduct(-p.y, q.x);
  }

  /** The y'-row of the usual direct linear transform, with the source point in columns 3 and 4. */
  function DltRowY(p: Point, q: Point): seq<real>
  {
    [0.0, 0.0, 0.0, p.x as real, p.y as real, 1.0, (-p.x * q.y) as real, (-p.y * q.y) as real]
  }

  lemma DivideThrough(a: real, w: real, x: real)
    requires w != 0.0
    ensures a * w == x <==> a == x / w
  {
    if a * w == x {
      assert x / w == a * w / w;
    }
  }

  /** With the corrected y'-row the pair of rows of a correspondence holds exactly when H maps
      p onto q. */
  lemma DltRowsEncodeProjection(p: Point, q: Point, h: Coefficients)
    requires Projectable(Pack(h), p.x as real, p.y as real)
    ensures Dot8(RowX(p, q), h) == q.x as real && Dot8(DltRowY(p, q), h) == q.y as real
        <==> Project(Pack(h), p.x as real, p.y as real) == Point2(q.x as real, q.y as real)
  {
    var v := Apply(Pack(h), Homogeneous(p.x as real, p.y as real));
    RowXEncodesProjection(p, q, h);
    DltRowYEncodesProjection(p, q, h);
    DivideThrough(q.x as real, v.w, v.x);
    DivideThrough(q.y as real, v.w, v.y);
  }

  /** The corrected y'-row is the linearised y'-equation y' * (h6 x + h7 y + 1) == h3 x + h4 y + h5. */
  lemma DltRowYEncodesProjection(p: Point, q: Point, h: Coefficients)
    ensures var v := Apply(Pack(h), Homogeneous(p.x as real, p.y as real));
            Dot8(DltRowY(p, q), h) == q.y as real <==> q.y as real * v.w == v.y
  {
    CastProduct(-p.x, q.y);
    CastProduct(-p.y, q.y);
  }

  /** The pure translation by (10, 10) of the square with corners 0 and 100. */
  const SquareCorners := [Point(0, 0), Point(100, 0), Point(0, 100), Point(100, 100)]
  const ShiftedCorners := [Point(10, 10), Point(110, 10), Point(10, 110), Point(110, 110)]

  /** The translation by (10, 10) maps every corner of the square onto its shifted corner. */
  lemma TranslationFitsExample(i: int)
    requires 0 <= i < 4
    ensures Project(Translation(10.0, 10.0), SquareCorners[i].x as real, SquareCorners[i].y as real)
        == Point2(ShiftedCorners[i].x as real, ShiftedCorners[i].y as real)
  {
    ProjectTranslation(10.0, 10.0, SquareCorners[i].x as real, SquareCorners[i].y as real);
  }

  /** On the translation example the system as written is not solved by the translation
      [[1,0,10],[0,1,10],[0,0,1]], which maps every correspondence exactly: its y'-row for
      (0,0) -> (10,10) evaluates to 20, not 10. */
  lemma AsWrittenMissesTranslation()
    ensures !Solves(SystemMatrix(SquareCorners, ShiftedCorners), SystemTarget(SquareCorners, ShiftedCorners),
                    Unpack(Translation(10.0, 10.0)))
  {
    var a := SystemMatrix(SquareCorners, ShiftedCorners);
    var b := SystemTarget(SquareCorners, ShiftedCorners);
    assert a[1] == RowY(Point(0, 0), Point(10, 10)) == [0.0, 0.0, 0.0, 10.0, 10.0, 1.0, 0.0, 0.0];
    assert b[1] == 10.0;
    assert Dot8(a[1], Unpack(Translation(10.0, 10.0))) == 20.0;
  }

  /** The coefficients of [[1,0,10],[0,1,0],[0,0,1]], which shifts x by 10 and y by nothing. */
  const ShiftXOnly: Coefficients := [1.0, 0.0, 10.0, 0.0, 1.0, 0.0, 0.0, 0.0]

  /** ... and it is solved exactly by the matrix that leaves y unshifted, so a least-squares
      solve of it has zero residual away from the true homography. */
  lemma AsWrittenSolvedByWrongMatrix()
    ensures Solves(SystemMatrix(SquareCorners, ShiftedCorners), SystemTarget(SquareCorners, ShiftedCorners),
                   ShiftXOnly)
  {
    var a := SystemMatrix(SquareCorners, ShiftedCorners);
    var b := SystemTarget(SquareCorners, ShiftedCorners);
    forall k | 0 <= k < |a|
      ensures |a[k]| == 8 && Dot8(a[k], ShiftXOnly) == b[k]
    {
      var p, q := SquareCorners[k / 2], ShiftedCorners[k / 2];
      assert a[k] == Row(SquareCorners, ShiftedCorners, k);
      assert b[k] == Target(SquareCorners, ShiftedCorners, k);
      if k % 2 == 0 {
        assert Dot8(RowX(p, q), ShiftXOnly) == p.x as real + 10.0;
      } else {
        assert Dot8(RowY(p, q), ShiftXOnly) == q.y as real;
      }
    }
  }
}

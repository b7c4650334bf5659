# Panorama stitching core, modelled in Dafny

This project models the image-mosaicing core of `src/mosaic.cpp`:

- fitting a planar homography to point correspondences (`computeHomography`);
- bilinear sampling (`interpolateLin`);
- the transformed bounding box (`computeTransformedBBox`);
- inverse warping (`warpImage`, `rectifyImage`);
- the two pairwise stitchers with their sigmoid seam blend (`stitch`, `stitchWarpLeft`,
  `stitchWarpBoth`);
- the 360-degree cylinder stitcher (`calculateCircumference`, `stitchCylinder`).

Images are `array3<real>` buffers indexed (column, row, channel). Input images are read only.
Every output is a fresh buffer filled by the same nested loops as the source. Two accessors
model pixel reads:

- `Interpolation.ZeroFill` is `smartAccessor(..., false)`: the pixel inside the image, 0
  outside it.
- `Interpolation.Checked` is `operator()`, which faults outside the image. It returns an
  `Option`, and a fault means the cell is not written.

C++'s `(int)` cast of a float rounds toward zero, and so does its `int` division. Both are
written out in `CppArith` (`Trunc`, `Quot`), because Dafny's `Floor` and `/` round down.

Foreign numerics are parameters of the operations:

- the QR least-squares solve is `solve: Solver`;
- `H.inverse()` is `hinv` for `WarpImage` and `Stitch`, and `invert` for `RectifyImage`,
  `StitchWarpLeft` and `StitchWarpBoth`;
- the sigmoid `1 / (1 + exp(-v))` is `logistic: real -> Weight`, where `Weight` is the open
  interval (0, 1);
- the images already warped onto the cylinder, and their converted boundaries, are inputs
  of `StitchCylinder`.

These failures of the source are explicit `Result` errors:

- a mismatched or too small correspondence set (`MismatchedSize`);
- a canvas side that is zero or negative in `warpImage` (`BadHomography`), or negative in a
  compositor (`NegativeCanvas`);
- a corner of the image that projects to infinity, or a destination pixel whose inverse image
  is at infinity (`UndefinedProjection`);
- a cylinder sweep that steps past the last boundary pair (`RanPastLastImage`).

Two further failures are per-cell faults rather than errors (see "## Left out"): a read outside
a cylinder image, and a read past the end of `warped` or the boundary list. A singular
homography is not detected, because `H.inverse()` is a parameter.

## Model

| member | source | states |
|---|---|---|
| CppArith.Trunc | src/mosaic.cpp:104-105 | `(int)` of a float rounds toward zero: for r >= 0, n <= r < n+1; for r < 0, n-1 < r <= n |
| CppArith.Quot | src/mosaic.cpp:209-210 | C++ integer `/` by a positive divisor: the remainder has the sign of the dividend and is smaller than the divisor |
| CppArith.TruncVersusFloor | src/mosaic.cpp:104-105 | the `(int)` cast equals the floor on non-negative and whole values, and is the floor plus one on every negative non-integer |
| CppArith.QuotVersusDiv | src/mosaic.cpp:209-210 | C++ `/` by a positive divisor equals Dafny's Euclidean `/` on non-negative dividends and exact multiples, and is one above it on every other negative dividend |
| Interpolation.ZeroFill | src/mosaic.cpp:163-164 | definition: `smartAccessor(x, y, z, false)` returns the stored sample inside the buffer and 0 outside it |
| Interpolation.Checked | src/mosaic.cpp:388 | definition: `operator()` returns the stored sample inside the buffer and faults (None) outside it |
| Interpolation.LerpBetween | src/mosaic.cpp:60-68 | a weighted average `a(1-t) + bt` with 0 <= t <= 1 lies between a and b |
| Interpolation.InterpolateLin | src/mosaic.cpp:53-72 | the bilinear sample lies between the least and the greatest of its four neighbouring zero-filled pixels |
| Interpolation.InterpolateAtPixel | src/mosaic.cpp:53-72 | at integer coordinates the bilinear sample is exactly the pixel, with zero fill |
| Homography.PackRoundTrip | src/mosaic.cpp:45-48 | packing h into H and reading the 8 coefficients back gives h, and H(2,2) = 1 |
| Homography.UnpackRoundTrip | src/mosaic.cpp:45-48 | a matrix with H(2,2) = 1 is recovered from its 8 coefficients |
| Homography.Pack | src/mosaic.cpp:45-48 | definition: h(0..2), h(3..5), h(6..7) fill H row by row, and H(2,2) = 1 |
| Homography.RowX | src/mosaic.cpp:27-31 | definition: row 2i of A is [x, y, 1, 0, 0, 0, -x x', -y x'] |
| Homography.RowY | src/mosaic.cpp:33-37 | definition: row 2i+1 of A as written, [0, 0, 0, x', y', 1, -x y', -y y'] |
| Homography.DltRowY | src/mosaic.cpp:33-37 | definition of the corrected row 2i+1: [0, 0, 0, x, y, 1, -x y', -y y'] |
| Homography.SystemMatrix | src/mosaic.cpp:24-41 | definition: A has 2n rows, row 2i is RowX and row 2i+1 is RowY of correspondence i |
| Homography.Fit | src/mosaic.cpp:44-49 | definition: the homography is the QR solve of the assembled system A h = b, packed into H with H(2,2) = 1 |
| Homography.FillRowX | src/mosaic.cpp:27-31 | row 2i of A becomes [x, y, 1, 0, 0, 0, -x x', -y x'], b(2i) = x', and no other row changes |
| Homography.FillRowY | src/mosaic.cpp:33-37 | row 2i+1 of A becomes [0, 0, 0, x', y', 1, -x y', -y y'] as written, b(2i+1) = y', and no other row changes |
| Homography.FillPair | src/mosaic.cpp:26-40 | one loop iteration: rows 2i and 2i+1 of A become the two row models of correspondence i, b(2i) and b(2i+1) its target coordinates, and every other row of A and entry of b is unchanged |
| Homography.AssembleSystem | src/mosaic.cpp:22-40 | A and b are new buffers; A is 2n x 8 and b has 2n entries; every row of A is the row model of its correspondence, and b lists the target coordinates |
| Homography.ComputeHomography | src/mosaic.cpp:16-50 | an error (MismatchedSize) exactly when the lists differ in length or hold fewer than 4 points; otherwise the packed solution of the assembled system, with H(2,2) = 1 |
| Homography.RowXEncodesProjection | src/mosaic.cpp:27-31 | row 2i is solved exactly when x'(h6 x + h7 y + 1) = h0 x + h1 y + h2 |
| Homography.DltRowsEncodeProjection | src/mosaic.cpp:27-37 | with the corrected y'-row, both rows of a correspondence are solved exactly when H projects p onto q |
| Homography.DltRowYEncodesProjection | src/mosaic.cpp:33-37 | the corrected y'-row is solved exactly when y'(h6 x + h7 y + 1) = h3 x + h4 y + h5 |
| Homography.TranslationFitsExample | src/mosaic.cpp:27-37 | the shift by (10, 10) maps each corner of a 100 x 100 square onto its shifted corner |
| Homography.AsWrittenMissesTranslation | src/mosaic.cpp:33-34 | the system as written is not solved by that shift: its first y'-row evaluates to 20 against a target of 10 |
| Homography.AsWrittenSolvedByWrongMatrix | src/mosaic.cpp:33-34 | the system as written is solved exactly by the matrix that shifts x only |
| Warp.BBoxEdgewise | src/mosaic.cpp:77-94 | xmin is the smaller x of the two left corners, xmax the larger x of the two right corners, ymin the smaller y of the top corners, ymax the larger y of the bottom corners |
| Warp.TransformedBBox | src/mosaic.cpp:77-94 | definition: the four corners are projected, then xmin = min of the two left x, xmax = max of the two right x, ymin = min of the two top y, ymax = max of the two bottom y |
| Warp.CanvasWidth | src/mosaic.cpp:104 | definition: the canvas width is the `(int)` cast, rounding toward zero, of xmax - xmin |
| Warp.CanvasHeight | src/mosaic.cpp:105 | definition: the canvas height is the `(int)` cast, rounding toward zero, of ymax - ymin |
| Warp.WarpCell | src/mosaic.cpp:114-119 | definition: destination pixel (i, j) in channel c is the bilinear sample of the source at the point `Hinv (i+tx, j+ty, 1)` divided through by its w-coordinate |
| Warp.IdentityBBox | src/mosaic.cpp:77-94 | under the identity the box is [0, w, 0, h] |
| Warp.TranslationBBox | src/mosaic.cpp:77-94 | under a translation by (dx, dy) the box is the image's extent shifted by (dx, dy) |
| Warp.EdgewiseNotGlobal | src/mosaic.cpp:89 | the box is not a global bound: under the mirror x -> -x, xmin is 0 while the right corners land at -w |
| Warp.ZeroFillOfWarp | src/mosaic.cpp:109-121 | reading a warp result through the zero-fill accessor gives the warped value inside the canvas and 0 outside it |
| Warp.Resample | src/mosaic.cpp:109-123 | the output is a new buffer; it has the canvas sides and the input's channels, and every cell (i, j, c) is the interpolated source sample at the dehomogenised `Hinv (i+tx, j+ty, 1)` |
| Warp.WarpFailure | src/mosaic.cpp:101-108 | definition: a failed warp is BadHomography when the corners are finite and a canvas side is 0 or less (the "bad homography" condition), and UndefinedProjection when a corner or sample lies at infinity |
| Warp.WarpImage | src/mosaic.cpp:99-124 | succeeds exactly when the corners and all samples are finite and both canvas sides are positive; a failure is BadHomography exactly when the corners are finite and a side is 0 or less (`WarpFailure`), and UndefinedProjection otherwise; the result has size trunc(xmax-xmin) x trunc(ymax-ymin) x channels, and every cell is the interpolation of the dehomogenised `Hinv (i+tx, j+ty, 1)`; a successful result is a new buffer, never one of the inputs |
| Warp.TranslationWarp | src/mosaic.cpp:99-124 | warping by an integer translation with its inverse keeps the size and reproduces the image (the identity is the offset (0, 0)) |
| Warp.RectifyImage | src/mosaic.cpp:130-137 | a MismatchedSize error exactly when the size guard fails; otherwise the warp of the image by the fitted homography and its inverse, with the same success condition and the same error; a successful result is a new buffer, never one of the inputs |
| Stitch.Composite | src/mosaic.cpp:163-171 | if one sample is 0 the cell is the other sample unchanged; if both are nonzero it lies between them |
| Stitch.CompositeSymmetric | src/mosaic.cpp:163-171 | swapping the two samples and replacing alpha by 1 - alpha gives the same cell |
| Stitch.CompositeStrict | src/mosaic.cpp:166-171 | for two different nonzero samples, in either order, the blend lies strictly between the smaller and the larger |
| Stitch.BlendCell | src/mosaic.cpp:163-171 | definition: the first buffer read at (i, j), the second at the truncated (i+dx, j+dy), both with zero fill, composited with weight logistic(i - mid) |
| Stitch.LeftLayout | src/mosaic.cpp:147-156 | definition: width trunc(w2 - tx), height the larger of trunc(ymax - ymin) and h2, offset (tx, ty), and mid the average of trunc(-tx) and trunc(xmax - tx) |
| Stitch.BothLayout | src/mosaic.cpp:218-229 | definition: width trunc(xmax2 - xmin1), height trunc of the larger ymax minus the smaller ymin, offset (tx1 - tx2, ty1), and mid the average of trunc(xmin2 - tx1) and trunc(xmax1 - tx1) |
| Stitch.Blend | src/mosaic.cpp:159-174 | the canvas is a new buffer of the requested size, and every cell composites the first buffer at (i, j) with the second at the truncated (i+dx, j+dy), weighted by logistic(i - mid) |
| Stitch.LeftStitchOfBlend | src/mosaic.cpp:145-174 | compositing the warp result of im1 with im2 gives the `stitch` panorama of the warped image |
| Stitch.Stitch | src/mosaic.cpp:143-176 | succeeds exactly when the warp succeeds and the canvas width `trunc(w2 - tx)` is not negative; a failed warp passes its own error on, and a negative width is NegativeCanvas; the canvas is width x max(trunc(ymax-ymin), h2); every cell composites the warped im1 with im2 read at (i+tx, j+ty); a successful result is a new buffer, never one of the inputs |
| Stitch.StitchWarpLeft | src/mosaic.cpp:183-191 | a MismatchedSize error exactly when the size guard fails; otherwise `stitch` with the fitted homography, with its success condition and its errors; a successful result is a new buffer, never one of the inputs |
| Stitch.Midpoint | src/mosaic.cpp:209-210 | each coordinate is half the sum, rounded toward zero: the remainder is 0 or takes the sign of the sum |
| Stitch.MidpointBetween | src/mosaic.cpp:209-210 | each midpoint coordinate lies between the two coordinates it averages |
| Stitch.MidpointList | src/mosaic.cpp:206-212 | one midpoint per correspondence, in order |
| Stitch.BothStitchOfBlend | src/mosaic.cpp:214-247 | compositing the two warp results gives the `stitchWarpBoth` panorama |
| Stitch.BothCellOfBlend | src/mosaic.cpp:234-245 | one blended cell of the two warp buffers equals the composite of the two warped images read through the zero-fill accessor, the second at the truncated (i+dx, j+dy) |
| Stitch.StitchWarpBoth | src/mosaic.cpp:199-249 | a MismatchedSize error exactly when the size guard fails; otherwise both images are warped onto the midpoint frame, it succeeds exactly when both warps succeed and the shared canvas has no negative side; the first failed warp passes its own error on, and a negative side is NegativeCanvas; every cell composites the two warped images; a successful result is a new buffer, never one of the inputs |
| Stitch.DisjointStitchIsSum | src/mosaic.cpp:163-166 | where one of the two contributions is 0, the panorama cell is their plain sum |
| Cylinder.CalculateCircumference | src/mosaic.cpp:421-428 | the circumference is the sum of b[i+1] - b[i] over the pairs at even indices |
| Cylinder.PairSumPrefix | src/mosaic.cpp:421-428 | extending the list by one pair adds that pair's width to the circumference |
| Cylinder.CircumferenceOfTwoImages | src/mosaic.cpp:421-428 | [0, 50, 50, 100] gives 100 |
| Cylinder.Telescope | src/mosaic.cpp:421-428 | for a contiguous boundary list, the circumference is the last boundary minus the first |
| Cylinder.PairSumNonNegative | src/mosaic.cpp:421-428 | when every pair is ordered, the circumference is not negative |
| Cylinder.Advance | src/mosaic.cpp:347-353 | one column step keeps the cursor on a boundary pair; it has no successor exactly when it is past the right boundary of the last pair |
| Cylinder.ColumnCursor | src/mosaic.cpp:343-361 | definition: column x is written with the cursor after x+1 steps from (0, nb[0]), because each iteration steps the cursor before it writes |
| Cylinder.State | src/mosaic.cpp:338-353 | every cursor the sweep reaches lies on a boundary pair |
| Cylinder.StepShape | src/mosaic.cpp:347-353 | each step either moves one column to the right, or moves to the next image at its left boundary |
| Cylinder.SomeBefore | src/mosaic.cpp:343-350 | once the sweep has run past the last image it stays past it |
| Cylinder.CursorWithinImage | src/mosaic.cpp:347-353 | with ordered pairs, the local column stays between its image's left boundary and one past its right boundary |
| Cylinder.RunOnImage | src/mosaic.cpp:351-353 | within one image the local column advances by one per step |
| Cylinder.StateOnImage | src/mosaic.cpp:338-353 | image i is swept from its left boundary to one past its right boundary; the sweep enters it after the widths-plus-two of all earlier images |
| Cylinder.ArriveAtImage | src/mosaic.cpp:347-350 | the sweep enters every image after the first at that image's left boundary, at the column where the previous image's run ends |
| Cylinder.ImageStartSum | src/mosaic.cpp:343-353 | image i is entered after the widths of all earlier boundary pairs plus two columns per earlier image |
| Cylinder.SweepOkIff | src/mosaic.cpp:343-353 | every column below the circumference has a cursor exactly when the sweep still has a cursor at the circumference itself |
| Cylinder.SweepFitsOwnBoundaries | src/mosaic.cpp:331-353 | over a circumference computed from its own ordered boundary list, the sweep never runs past the last image |
| Cylinder.TwoImageColumns | src/mosaic.cpp:338-353 | on [0, 50, 50, 100], columns 0..50 come from image 0 at local column x+1, and columns 51..102 from image 1 at local column x-1 |
| Cylinder.BackNeedsPrevious | src/mosaic.cpp:355-360 | a backward blend only happens when there is an earlier image, and it takes precedence over a forward blend |
| Cylinder.ForwardGuardAlwaysTrue | src/mosaic.cpp:358 | on every existing image the forward guard reduces to the 20-column window, including the last image |
| Cylinder.CorrectedForwardHasNext | src/mosaic.cpp:358 | with the corrected guard, a forward blend always has a next image and a next boundary pair, and the flags agree with the source's on every image but the last |
| Cylinder.SeamOf | src/mosaic.cpp:355-360 | definition: BlendBack within 20 columns of the left boundary on an image after the first; otherwise BlendForward within 20 columns of the right boundary under the as-written guard `image <= count - 1`; otherwise NoBlend |
| Cylinder.CorrectedSeamOf | src/mosaic.cpp:355-360 | definition: the same flags with the forward guard `image < count - 1` |
| Cylinder.SeamBlend | src/mosaic.cpp:371-374 | a seam cell is written exactly when both samples exist and are nonzero, with a value between them |
| Cylinder.Sample | src/mosaic.cpp:368-388 | definition: `warped[k](x, y, z)` through the checked accessor, a fault when k is not an index of `warped` or the pixel is outside image k |
| Cylinder.CellWrite | src/mosaic.cpp:363-397 | definition: a back seam blends the current image with the previous one at `Right(i-1) + diff`, a forward seam with the next one at `nb[2i+2] - diff` (a fault past the last pair), each with weight logistic(-diff); otherwise the current image's sample is copied |
| Cylinder.Offset | src/mosaic.cpp:341 | definition: the band offset is (circ / 3 - height) / 2 with both divisions truncating |
| Cylinder.CylinderCell | src/mosaic.cpp:333-397 | definition: a panorama cell is 0 outside the band `offset <= y < circumference/3 - offset`; inside it, the value the cell write of column x's cursor and seam stores at row y - offset, or 0 when that write faults or is skipped |
| Cylinder.FillColumn | src/mosaic.cpp:361-401 | the band rows `offset <= y < height - offset` of column x receive the cell each seam case writes (or keep their value when the read faults or a sample is 0), and every other cell is unchanged |
| Cylinder.SweepColumn | src/mosaic.cpp:343-402 | given all earlier columns swept, column x gets its cursor and its cells, so the first x+1 columns hold the panorama and the rest are still 0 |
| Cylinder.StitchCylinder | src/mosaic.cpp:329-404 | NegativeCanvas for a negative circumference; RanPastLastImage when a column has no cursor; otherwise a circumference x circumference/3 canvas whose band rows hold the sweep's writes and all other cells are 0; a successful result is a new buffer, never one of the inputs |
| Cylinder.NoBlendCopies | src/mosaic.cpp:386-389 | a cell outside any seam copies `warped[currentImage](localX, y - offset, z)` |
| Cylinder.LastImageTailBlack | src/mosaic.cpp:358 | on [0, 50, 50, 100] with two images, every cell of columns 82..99 is 0 whatever the images hold |
| Cylinder.CorrectedTailCopies | src/mosaic.cpp:358 | with the corrected guard, those columns copy the last image |

## Left out

- The least-squares solve (Eigen's column-pivoting Householder QR) is the parameter `solve`. Its properties are not modelled.
- `H.inverse()` is likewise a parameter, not computed: `hinv` or `invert`.
- `exp` in the sigmoid is the parameter `logistic`, whose only modelled property is its range (0, 1).
- The cylinder geometry is not modelled: `convertToCylinder`, `warpCylinder`, `warpAll`, `convertBoundaries`, the radius from `M_PI`, and `getFocalLength`. These are transcendental or floating-point. `StitchCylinder` takes the warped images and the converted boundaries as inputs. It reads the first image's height and depth from the warped image, because `warpCylinder` keeps the size of its input.
- Arithmetic is on `real` and unbounded `int`. Float rounding, NaN and infinity, and 32-bit `int` overflow are not modelled.
- A zero w-coordinate is not carried through as float infinity. `WarpImage` reports it as `UndefinedProjection` before filling the canvas.
- `FloatImage` is a 3-D buffer, and its header is not part of this model. The model assumes the following about it: a new image is zero-filled, a side of 0 gives an empty buffer, and `smartAccessor` truncates float coordinates to `int` coordinates.
- The "bad homography" notice in `warpImage` only prints in the source. As a design choice the model turns that condition (a canvas side of 0 or less) into the error `BadHomography` instead of going on. The other allocations have no such notice: a side of 0 there gives an empty panorama, and only a negative side, which a Dafny array cannot have, is the error `NegativeCanvas`.
- The accessor's clamp mode is not modelled, because every call in the core passes `false`.
- Logging (`cout`/`cerr`) and the `try`/`catch` around each cylinder pixel are not modelled. A faulting read is a `None` sample, and the cell stays unwritten.
- Reading `warped[currentImage + 1]` or `newBoundaries[2 currentImage + 2]` past the end has no defined result in C++. The model treats either as a fault (the cell is not written).
- Stepping past the last boundary pair is likewise undefined in C++. The model reports `RanPastLastImage`.
- `CalculateCircumference` requires an even-length list, because the source reads b[i+1] past the end of an odd list.
- `StitchCylinder` requires one boundary pair per image, as the source's indexing assumes.

## Findings

| source | as written | input that shows it | evidently intended | confidence | as-written member | corrected member |
|---|---|---|---|---|---|---|
| src/mosaic.cpp:33-34 | the y'-row of A holds the target point (x', y') in columns 3 and 4 | square (0,0),(100,0),(0,100),(100,100) mapped to the same square shifted by (10,10): the true shift does not solve the system, and the x-only shift does | the source point (x, y) in columns 3 and 4, as in the direct linear transform | high, not executed | Homography.AsWrittenMissesTranslation | Homography.DltRowsEncodeProjection |
| src/mosaic.cpp:358 | `currentImage <= images.size() - 1` holds on every image, so the last image's final 20 columns blend forward against an image that does not exist | boundaries [0, 50, 50, 100] with two images: columns 82..99 read `warped[2]` and `newBoundaries[4]`, past the end of both (undefined behaviour); under the model's fault reading these columns stay 0 | `currentImage < images.size() - 1` | high, not executed | Cylinder.LastImageTailBlack | Cylinder.CorrectedTailCopies |

The operations `ComputeHomography` and `StitchCylinder` follow the code as written. The
corrected row `Homography.DltRowY` and the corrected guard `Cylinder.CorrectedSeamOf` are defined
next to them. The lemmas above prove the intended property holds for the corrected versions.

# Polygonal marker detector: the marker-geometry pipeline

This project models the geometric core of `detectAndLabelMarkers` in
`marker_detector.py`. For each candidate pentagon of a frame, the detector:

1. finds the short sides of the polygon (edges shorter than 80 pixels);
2. locates the concave corner where two short sides meet, and the midpoint
   of the third short side (the marker's base);
3. rasterizes the marker axis from the corner to that midpoint with
   `bresenhamLineGenerator` (the model draws it with corrected step
   directions, see "## Findings"; the generator as written is modelled
   beside it);
4. samples the axis at fixed fractions of its length, thresholds the grey
   value at each position into a bit, and reads the reversed bit string as a
   base-2 label;
5. adds one row per labelled marker: frame number, label, and the position
   of the concave corner.

The modules are:

- `Common`: points, options, and the Python exceptions a frame can end in.
  `IndexError` and `ValueError` are modelled as `Result.Err`.
- `Rasterizer`: the line generator. Step directions, error term and the
  two loops are modelled, together with a corrected variant.
- `Corners`: short sides, the shared-endpoint scan with its early `break`,
  and the base midpoint.
- `Sampling`: sample positions, pixel reads with numpy's indexing rules,
  and the bit threshold.
- `Decoding`: the reverse-and-parse decode, with an encoder as its inverse.
- `Detector`: the per-polygon body and the loop over the polygons of one
  frame.

The code loops are modelled as methods with loop invariants:

- the rasterizer loop: `Rasterizer.Walk`;
- the short-side scan: `Corners.LocateCorner`;
- the sampling loop: `Sampling.SampleCode`;
- the polygon loop: `Detector.DetectMarkers`.

Each method is proved equal to a specification function. The properties are
proved about those functions.

Where the code and its prose description disagree, the model follows the
code. The points are:

- **Line length.** The rasterizer's loop runs over the y-span *after* the
  optional coordinate swap. So a line has `1 + max(|dx|, |dy|)` pixels, not
  `|y1 - y0| + 1` (`Rasterizer.Line`, `Rasterizer.HorizontalLine`).
- **One or two short sides.** The scan raises `IndexError` rather than
  skipping the polygon (`Corners.LocateFails`). Because nothing catches it,
  the whole frame ends without writing a row (`Detector.CollectMeaning`).
- **More than three short sides.** The scan still visits every short side,
  pairing positions modulo 3 (`Corners.ScanFrom`).
- **Short axes.** An axis of 20 or 25 pixels gives six samples, not five
  (`Sampling.SixSamples`).
- **Pixel reads.** A read outside numpy's index range raises `IndexError`.
  A negative coordinate wraps around, as numpy indexing does
  (`Sampling.AxisIndex`, `Sampling.Pixel`).

## Model

| member | source | states |
|---|---|---|
| Rasterizer.Line | marker_detector.py:50-51 | the generated line starts at (x0, y0) and has 1 + max(dx, dy) pixels (the loop count after the swap at lines 79-83) |
| Rasterizer.SourceSteps | marker_detector.py:62-69 | `yStep` is +1 on every shallow line, and the directions agree with the corrected ones (each axis toward its endpoint) exactly when the line is neither leftward shallow nor a descending diagonal drawn right to left |
| Rasterizer.Trace | marker_detector.py:74-92 | the swap of coordinates for a shallow slope and the initial error term yield exactly the line `Line` describes, for any step directions |
| Rasterizer.Walk | marker_detector.py:103-148 | the two loops (shallow appends (y, x), steep appends (x, y)) produce pixel k as the error term's k-th state predicts, for every k |
| Rasterizer.Rasterize | marker_detector.py:11-150 | `bresenhamLineGenerator` as written returns the line with the source's step directions of lines 62-69 |
| Rasterizer.RasterizeCorrected | marker_detector.py:62-69 | the same generator with step directions toward (x1, y1) returns the line with the corrected directions |
| Rasterizer.AdvancesClosedForm | marker_detector.py:123-129 | after k iterations the error term has advanced the minor axis floor((2kd + D) / 2D) times and holds the rounding remainder; it starts at p0 = 2d - D (line 86) |
| Rasterizer.MinorAdvancesTotal | marker_detector.py:123-129 | over the whole loop the minor axis advances exactly d times |
| Rasterizer.LineSteps | marker_detector.py:123-148 | consecutive pixels are 8-neighbours: the major coordinate moves by exactly 1, the other by at most 1, in original (x, y) order in both branches |
| Rasterizer.LineEnd | marker_detector.py:62-69 | the last pixel lies the full major span and the full minor span from the start, each in its own step direction |
| Rasterizer.SourceLineEnd | marker_detector.py:62-69 | the line as written ends at (x1, y1) if and only if it is not a leftward shallow line and not a right-to-left descending diagonal; in particular whenever x0 <= x1 |
| Rasterizer.CorrectedLineEnd | marker_detector.py:62-69 | with corrected step directions every line ends at (x1, y1) |
| Rasterizer.HorizontalLine | marker_detector.py:79-83 | the segment (0,0)->(10,0) is drawn as the 11 pixels (k, 0): the loop runs over the swapped span |
| Rasterizer.SourceLineMisses | marker_detector.py:62-69 | (10,0)->(0,0) ends at (20,0) and (4,4)->(0,0) ends at (8,0) as written |
| Corners.SquaredDistance | marker_detector.py:153-166 | `computeDistance` squared: never negative, zero exactly for equal points, and at least each coordinate difference |
| Corners.ShortSideTest | marker_detector.py:242-243 | for the non-negative root d of a squared length, d < 80 exactly when the squared length is below 6400, so `IsShortSide` decides the source's test |
| Corners.ShortSides | marker_detector.py:239-244 | every index in `matchingSides` is a vertex index of the polygon |
| Corners.ShortSidesMeaning | marker_detector.py:239-244 | `matchingSides` holds exactly the indices i whose edge to vertex (i+1) mod n has squared length below 6400 (length below 80, line 166), in ascending order |
| Corners.SharedEndpoint | marker_detector.py:272-281 | a reported corner is an endpoint of both sides; none is reported iff neither endpoint of the first side lies on the second; the first side's start is preferred |
| Corners.Midpoint | marker_detector.py:302-308 | the base midpoint is the floor-average of the two endpoints of the side, coordinate by coordinate |
| Corners.ScanFrom | marker_detector.py:249-308 | the scan from any position raises only IndexError; a reported corner is an endpoint of a short side at or after that position, and the base midpoint is the midpoint of a short side |
| Corners.Locate | marker_detector.py:249-308 | the scan of one polygon raises only IndexError; a reported corner is an endpoint of a short side, and the base midpoint is the midpoint of a short side |
| Corners.LocateCorner | marker_detector.py:249-308 | the scan over `matchingSides` with its early `break` (line 396) returns what `Locate` specifies, including the IndexError |
| Corners.LocateFails | marker_detector.py:260 | the scan raises exactly when there are one or two short sides, and the exception is IndexError |
| Corners.LocateFound | marker_detector.py:249-308 | a reported corner comes from the first pair (k, (k+1) mod 3) sharing an endpoint, lies on both sides, and the base midpoint is that of side (k+2) mod 3 |
| Corners.ScanFound | marker_detector.py:249-308 | the same, for the scan resumed from any position of `matchingSides` |
| Corners.LocateNone | marker_detector.py:249-281 | no corner (and no row) exactly when there is no short side, or there are at least three and no pair shares an endpoint |
| Corners.ScanNone | marker_detector.py:249-281 | a scan resumed at li finds nothing iff no pair from li on shares an endpoint |
| Corners.ScanNoError | marker_detector.py:260 | with three or more short sides the scan never raises |
| Corners.NoShortSideNoCorner | marker_detector.py:239-244 | a polygon whose edges are all at least 80 pixels long yields no corner |
| Sampling.AxisIndex | marker_detector.py:344-347 | numpy indexing along one axis: defined exactly on [-len, len), negative indices counted from the end, the index used being (i + len) mod len |
| Sampling.Pixel | marker_detector.py:344-347 | `gray[y, x]` succeeds exactly when y lies in [-height, height) and x in [-width, width) of that row; it then reads the wrapped position ((y + height) mod height, (x + width) mod width), which is gray[y][x] for a pixel inside the frame; otherwise IndexError |
| Sampling.PixelRange | marker_detector.py:344-347 | in a frame of height H and width W a read succeeds exactly for -H <= y < H and -W <= x < W, and reads the wrapped position |
| Sampling.Bit | marker_detector.py:342-350 | the bit is '0' exactly when the grey value exceeds 180, otherwise '1' |
| Sampling.CycleJump | marker_detector.py:321 | `cycleJump` is the floor of n * 1.95 / 10, and at most n / 5 |
| Sampling.Range | marker_detector.py:323 | `range(start, stop, step)` is nonempty iff start < stop, starts at start and stays in [start, stop) |
| Sampling.RangeLength | marker_detector.py:323 | `range` has (stop - start - 1) / step + 1 elements when start < stop, none otherwise |
| Sampling.RangeElements | marker_detector.py:323 | element j of `range` is start + j * step |
| Sampling.Corrected | marker_detector.py:333-336 | the correction of a sample position never moves it past the position nor below 0 |
| Sampling.SampleIndices | marker_detector.py:321-337 | every corrected sample position lies in [0, n) |
| Sampling.SlotsElements | marker_detector.py:323-337 | the j-th slot from a given cycle on is the j-th `range` element corrected for cycle k + j |
| Sampling.SampleIndicesMeaning | marker_detector.py:321-337 | sample j is (j+1) * cycleJump, scaled by 0.9 for j = 0, by 0.85 for j = 1..4 and unchanged after, and the uncorrected position is below n |
| Sampling.ReadSlotsMeaning | marker_detector.py:342-350 | reading succeeds iff every position lies on the axis and within numpy's index range (negative coordinates wrap), then gives one thresholded bit per position in order; otherwise IndexError |
| Sampling.SampleBits | marker_detector.py:319-350 | the sampling raises ValueError exactly for axes of at most five pixels; otherwise a nonempty binary string, or IndexError when a sample lies outside numpy's index range |
| Sampling.SampleCode | marker_detector.py:319-350 | the sampling loop, with `actCycle` and the accumulated `binaryRepr`, returns what `SampleBits` specifies |
| Sampling.SampleBitsMeaning | marker_detector.py:342-350 | one bit per sample position; bit j is '0' exactly when the grey value at the j-th sampled axis pixel, read as [y][x], exceeds 180 |
| Sampling.CycleJumpZero | marker_detector.py:321-323 | `cycleJump` is 0, so `range` raises, exactly when the axis has at most five pixels |
| Sampling.FiveSamples | marker_detector.py:321-323 | every axis of 26 pixels or more gives exactly five samples |
| Sampling.SixSamples | marker_detector.py:321-323 | axes of 20 and 25 pixels give six samples |
| Decoding.Reverse | marker_detector.py:365 | `s[::-1]`: same length, element i is element len-1-i |
| Decoding.ParseBinary | marker_detector.py:365 | `int(s, 2)` succeeds exactly on nonempty strings of 0 and 1, and otherwise raises ValueError |
| Decoding.HornerReverse | marker_detector.py:365 | parsing the reversed string gives the place value with the first bit least significant |
| Decoding.Decode | marker_detector.py:365 | `int(binaryRepr[::-1], 2)` yields a label exactly for a nonempty string of binary digits, and otherwise raises ValueError |
| Decoding.ReverseBinary | marker_detector.py:365 | reversing keeps a string binary, and only a binary one |
| Decoding.DecodeMeaning | marker_detector.py:365 | decoding succeeds iff the bits are a nonempty binary string, and the label is the sum of bit_i * 2^i |
| Decoding.PlaceValueBound | marker_detector.py:365 | k bits give a label below 2^k |
| Decoding.FiveBitLabel | marker_detector.py:365 | five sampled bits always decode, to a label in 0..31 |
| Decoding.Encode | marker_detector.py:365 | the bit string of a label has the requested width and is binary |
| Decoding.DecodeEncode | marker_detector.py:365 | every label below 2^w is decoded back from its own w bits |
| Decoding.EncodeDecode | marker_detector.py:365 | every binary string is the encoding of its own label, so distinct strings of one length give distinct labels |
| Detector.Axis | marker_detector.py:312-317 | the corrected marker axis starts at the concave corner |
| Detector.AxisEnds | marker_detector.py:312-317 | the corrected axis ends at the base midpoint and has one pixel per step of the larger span |
| Detector.SourceAxisEnds | marker_detector.py:312-317 | the axis the source draws, with the step directions as written, ends at the base midpoint exactly when it is neither a leftward shallow line nor a descending diagonal drawn right to left |
| Detector.ProcessPolygon | marker_detector.py:226-396 | the per-polygon body (scan, axis, sampling, decode, row) returns what `PolygonRow` specifies, exceptions included |
| Detector.PolygonRowMeaning | marker_detector.py:373-375 | a row is produced iff a corner is found, the axis has more than five pixels, and every sample lies within numpy's index range (negative coordinates wrap); it carries the frame number, the concave corner as (Px, Py) and the place value of the bits as label; no row iff no corner |
| Detector.LabelBound | marker_detector.py:365 | the label is below 2^k for the k samples of the axis, and below 32 on every axis of 26 pixels or more |
| Detector.DetectMarkers | marker_detector.py:226-396 | the loop over the polygons accumulates exactly the rows `FrameRows` specifies, or stops at the first exception |
| Detector.CollectMeaning | marker_detector.py:226-375 | rows add up iff no polygon raises; at most one row per polygon, each from some polygon's outcome; otherwise the exception is the first one raised |
| Detector.CollectErr | marker_detector.py:226 | once a polygon raises, later polygons change nothing |
| Detector.CollectOrder | marker_detector.py:373-375 | with no exception, the rows are exactly the rows of the row-carrying outcomes: their number is the count of such outcomes, and outcome i's row sits at the position given by the count of row-carrying outcomes before it |
| Detector.RowCountGrows | marker_detector.py:373-375 | a row-carrying outcome is counted before every later position, so rows keep the order of their polygons |
| Detector.FrameRowsOrder | marker_detector.py:226-375 | every polygon's row is in the frame's rows, in polygon order, and there are no others |
| Detector.FrameRowsMeaning | marker_detector.py:226-375 | a frame yields rows iff no polygon raises; at most one row per polygon, each stamped with the frame number |
| Detector.RowsStamped | marker_detector.py:373-375 | every row taken from the frame's outcomes carries the frame number |

## Left out

- The OpenCV calls are not modelled: greyscale conversion, thresholding, contour finding, polygon approximation, area and arc length, and drawing (lines 189-221, 285-294, 352-361, 378-395). They are a foreign library or only annotate the image. The polygons (lists of integer vertices) and the greyscale grid are inputs.
- The pentagon and area filter (lines 212-218) and the column masking (line 194) are not modelled. Both are image preparation done before the modelled pipeline.
- The `qx`, `qy` columns are not modelled. They are trigonometry in floating point (lines 370-372), so a row keeps only frame, label, Px and Py.
- The CSV text, the file append and the file name are not modelled (lines 373-375, 399-402). They are text formatting and I/O. The model returns the rows of a frame, or the exception that ends the frame before the file is written.
- `main.py` is not part of this model (video capture and the frame loop).
- Float constants are replaced by integer arithmetic. The slope tests become comparisons of dx and dy. `int(n / 10 * 1.95)` becomes `n * 195 / 1000`. `int(i * 0.9)` and `int(i * 0.85)` become `i * 9 / 10` and `i * 85 / 100`. The distance test becomes a squared length below 6400. These agree with the float results for pixel-sized values; that agreement is assumed, not proved.
- Decoding.ParseBinary: only strings of the digits 0 and 1 are parsed. Signs, underscores, whitespace and a `0b` prefix are not accepted, although `int(s, 2)` accepts them. The sampler produces only 0 and 1.
- Rasterizer.Walk: the source's two loops, identical apart from the order of the appended pair, are one loop with a conditional append. The first-iteration `flag` branch is kept.
- Sampling.SampleCode: the position correction is a call to `Corrected` inside the loop, not inline arithmetic.
- Detector.Axis: draws the axis with the corrected step directions, not with the generator as written that line 312 calls (see "## Findings"); `Detector.SourceAxisEnds` states where the axis as written ends.
- Detector.AxisEnds: holds for the corrected axis only; the axis as written ends at the base midpoint only under the condition `Detector.SourceAxisEnds` states.
- Detector.ProcessPolygon: the axis is drawn with the corrected step directions (see Findings). With the step directions as written (`Rasterizer.Rasterize`), the axes of leftward shallow and right-to-left descending diagonal markers run away from the base.
- Integer width is not modelled. The vertices come from OpenCV as 32-bit integer arrays, so the squares at line 166 and the sums at lines 306-307 are 32-bit arithmetic. They cannot overflow for pixel coordinates: in a 1920x1080 frame a squared side length stays below about 4.9 million, far from 2^31.

## Findings

| source | as written | input that shows it | evidently intended | confidence | as-written member | corrected member |
|---|---|---|---|---|---|---|
| marker_detector.py:62-69 | `yStep` is +1 for every shallow line and `xStep` is +1 for a descending diagonal drawn right to left, so those lines step away from (x1, y1) | (10,0)->(0,0) yields (10,0), (11,0), ..., (20,0); (4,4)->(0,0) ends at (8,0) | each axis steps toward its own endpoint, so the line ends at (x1, y1) | not executed | Rasterizer.SourceLineMisses | Rasterizer.CorrectedLineEnd |

/** The per-frame work of `detectAndLabelMarkers`: for every candidate
    pentagon, locate the concave corner, rasterize the marker axis from it to
    the base midpoint, read the code slots along the axis, decode the label,
    and collect one CSV row per labelled marker. */
module Detector {
  import opened Common
  import opened Rasterizer
  import opened Corners
  import opened Sampling
  import opened Decoding

  /** One CSV row: frame number, marker label, and the axis's first pixel
      (the concave corner). The float `qx`, `qy` columns are not modelled. */
  datatype MarkerRow = MarkerRow(frame: int, id: nat, px: int, py: int)

  /** The marker axis: the rasterized segment from the concave corner to the
      base midpoint, drawn with step directions that lead to the midpoint. */
  function Axis(c: Corner): (r: seq<Point>)
    ensures |r| >= 1 && r[0] == c.concave
  {
    Line(c.concave.x, c.concave.y, c.baseMid.x, c.baseMid.y,
         CorrectedSteps(c.concave.x, c.concave.y, c.baseMid.x, c.baseMid.y))
  }

  /** The axis runs from the concave corner to the base midpoint, one pixel
      per step of the larger coordinate span. */
  lemma AxisEnds(c: Corner)
    ensures |Axis(c)| == Span(c.concave.x, c.concave.y, c.baseMid.x, c.baseMid.y) + 1
    ensures Axis(c)[|Axis(c)| - 1] == c.baseMid
  {
    CorrectedLineEnd(c.concave.x, c.concave.y, c.baseMid.x, c.baseMid.y);
  }

  /** The axis the source's call at line 312 draws, with the step directions
      as written, reaches the base midpoint exactly when it is neither a
      leftward shallow line nor a descending diagonal drawn right to left. */
  lemma SourceAxisEnds(c: Corner)
    ensures var x0, y0, x1, y1 := c.concave.x, c.concave.y, c.baseMid.x, c.baseMid.y;
      var dx, dy := Abs(x1 - x0), Abs(y1 - y0);
      var axis := Line(x0, y0, x1, y1, SourceSteps(x0, y0, x1, y1));
      axis[|axis| - 1] == c.baseMid <==> !(x0 > x1 && (dy < dx || (dy == dx && y0 > y1)))
  {
    SourceLineEnd(c.concave.x, c.concave.y, c.baseMid.x, c.baseMid.y);
  }

  /** The row one polygon contributes: none when no corner is found, or the
      exception raised while locating the corner or reading the slots. */
  function PolygonRow(poly: seq<Point>, grey: Image, frame: int): Result<Option<MarkerRow>> {
    match Locate(poly)
    case Err(f) => Err(f)
    case Ok(None) => Ok(None)
    case Ok(Some(c)) =>
      var axis := Axis(c);
      match SampleBits(axis, grey)
      case Err(f) => Err(f)
      case Ok(bits) =>
        match Decode(bits)
        case Err(f) => Err(f)
        case Ok(id) => Ok(Some(MarkerRow(frame, id, axis[0].x, axis[0].y)))
  }

  /** The body of the loop over `polygons`: the corner scan, and for the
      first corner found the axis, the slot reads and the label. */
  method ProcessPolygon(poly: seq<Point>, grey: Image, frame: int) returns (r: Result<Option<MarkerRow>>)
    ensures r == PolygonRow(poly, grey, frame)
  {
    var corner := LocateCorner(poly);
    if corner.Err? {
      return Err(corner.fault);
    }
    if corner.value.None? {
      return Ok(None);
    }
    var c := corner.value.value;
    var markerAxis := RasterizeCorrected(c.concave.x, c.concave.y, c.baseMid.x, c.baseMid.y);
    var binaryRepr := SampleCode(markerAxis, grey);
    if binaryRepr.Err? {
      return Err(binaryRepr.fault);
    }
    // a nonempty binary string always parses, so `int` cannot raise here
    var markerId := Decode(binaryRepr.value);
    return Ok(Some(MarkerRow(frame, markerId.value, markerAxis[0].x, markerAxis[0].y)));
  }

  /** The rows so far followed by one polygon's outcome: an exception ends
      the frame, a polygon without a corner adds nothing. */
  function Extend(rows: Result<seq<MarkerRow>>, outcome: Result<Option<MarkerRow>>): Result<seq<MarkerRow>> {
    match rows
    case Err(f) => Err(f)
    case Ok(done) =>
      match outcome
      case Err(f) => Err(f)
      case Ok(None) => Ok(done)
      case Ok(Some(row)) => Ok(done + [row])
  }

  /** The rows a sequence of per-polygon outcomes adds up to, or the first
      exception, which ends the frame before anything is written. */
  function Collect(outcomes: seq<Result<Option<MarkerRow>>>): Result<seq<MarkerRow>> {
    if outcomes == [] then Ok([])
    else Extend(Collect(outcomes[..|outcomes| - 1]), outcomes[|outcomes| - 1])
  }

  lemma CollectStep(outcomes: seq<Result<Option<MarkerRow>>>, i: nat)
    requires i < |outcomes|
    ensures Collect(outcomes[..i + 1]) == Extend(Collect(outcomes[..i]), outcomes[i])
  {
    assert outcomes[..i + 1][..i] == outcomes[..i];
  }

  /** The number of outcomes that carry a row. */
  function RowCount(outcomes: seq<Result<Option<MarkerRow>>>): (r: nat)
    ensures r <= |outcomes|
  {
    if outcomes == [] then 0
    else
      var last := outcomes[|outcomes| - 1];
      RowCount(outcomes[..|outcomes| - 1]) + if last.Ok? && last.value.Some? then 1 else 0
  }

  /** Rows keep the order of their outcomes: a row-carrying outcome i is
      counted before any position j past it. */
  lemma {:induction false} RowCountGrows(outcomes: seq<Result<Option<MarkerRow>>>, i: nat, j: nat)
    requires i < j <= |outcomes| && outcomes[i].Ok? && outcomes[i].value.Some?
    ensures RowCount(outcomes[..i]) < RowCount(outcomes[..j])
    decreases j
  {
    var prefix := outcomes[..j];
    assert prefix[..j - 1] == outcomes[..j - 1];
    if j - 1 == i {
      assert prefix[j - 1] == outcomes[i];
    } else {
      RowCountGrows(outcomes, i, j - 1);
    }
  }

  /** The outcome of every polygon of a frame, in order. */
  function Outcomes(polys: seq<seq<Point>>, grey: Image, frame: int): (r: seq<Result<Option<MarkerRow>>>)
    ensures |r| == |polys|
  {
    seq(|polys|, i requires 0 <= i < |polys| => PolygonRow(polys[i], grey, frame))
  }

  /** The rows of one frame. */
  function FrameRows(polys: seq<seq<Point>>, grey: Image, frame: int): Result<seq<MarkerRow>> {
    Collect(Outcomes(polys, grey, frame))
  }

  /** The loop over `polygons`, accumulating `outputFileContent` as rows. */
  method DetectMarkers(polygons: seq<seq<Point>>, grey: Image, currentFrame: int)
    returns (r: Result<seq<MarkerRow>>)
    ensures r == FrameRows(polygons, grey, currentFrame)
  {
    ghost var outcomes := Outcomes(polygons, grey, currentFrame);
    var outputFileContent: seq<MarkerRow> := [];
    var i := 0;
    while i < |polygons|
      invariant i <= |polygons|
      invariant Collect(outcomes[..i]) == Ok(outputFileContent)
    {
      var row := ProcessPolygon(polygons[i], grey, currentFrame);
      assert row == outcomes[i];
      CollectStep(outcomes, i);
      if row.Err? {
        assert Collect(outcomes[..i + 1]) == Err(row.fault);
        CollectErr(outcomes, i + 1);
        return Err(row.fault);
      }
      if row.value.Some? {
        outputFileContent := outputFileContent + [row.value.value];
      }
      i := i + 1;
    }
    assert outcomes[..i] == outcomes;
    return Ok(outputFileContent);
  }

  /** Once an exception is raised, later polygons are never looked at. */
  lemma {:induction false} CollectErr(outcomes: seq<Result<Option<MarkerRow>>>, i: nat)
    requires i <= |outcomes| && Collect(outcomes[..i]).Err?
    decreases |outcomes| - i
    ensures Collect(outcomes) == Collect(outcomes[..i])
  {
    if i < |outcomes| {
      CollectStep(outcomes, i);
      CollectErr(outcomes, i + 1);
    } else {
      assert outcomes[..i] == outcomes;
    }
  }

  /** A polygon yields a row exactly when a corner is found, its axis has
      more than five pixels (otherwise `range` raises ValueError), and every
      slot along the axis lies within numpy's index range; the row carries
      the frame number, the concave corner as its position, and as label the
      place value of the bits read. */
  lemma PolygonRowMeaning(poly: seq<Point>, grey: Image, frame: int)
    ensures PolygonRow(poly, grey, frame).Ok? && PolygonRow(poly, grey, frame).value.Some? <==>
      Locate(poly).Ok? && Locate(poly).value.Some? && SampleBits(Axis(Locate(poly).value.value), grey).Ok?
    ensures PolygonRow(poly, grey, frame) == Ok(None) <==> Locate(poly) == Ok(None)
    ensures PolygonRow(poly, grey, frame).Ok? && PolygonRow(poly, grey, frame).value.Some? ==>
      var row, c := PolygonRow(poly, grey, frame).value.value, Locate(poly).value.value;
      row.frame == frame && Point(row.px, row.py) == c.concave &&
      row.id == PlaceValue(SampleBits(Axis(c), grey).value)
  {
    if Locate(poly).Ok? && Locate(poly).value.Some? {
      var axis := Axis(Locate(poly).value.value);
      if SampleBits(axis, grey).Ok? {
        DecodeMeaning(SampleBits(axis, grey).value);
      }
    }
  }

  /** The label has one binary digit per slot read: it is below 2^k for k
      slots, and below 32 on every axis of 26 pixels or more. */
  lemma LabelBound(poly: seq<Point>, grey: Image, frame: int)
    requires PolygonRow(poly, grey, frame).Ok? && PolygonRow(poly, grey, frame).value.Some?
    ensures var axis := Axis(Locate(poly).value.value);
      |axis| > 5 &&
      PolygonRow(poly, grey, frame).value.value.id < Pow2(|SampleIndices(|axis|)|)
    ensures |Axis(Locate(poly).value.value)| >= 26 ==> PolygonRow(poly, grey, frame).value.value.id < 32
  {
    PolygonRowMeaning(poly, grey, frame);
    var axis := Axis(Locate(poly).value.value);
    var bits := SampleBits(axis, grey).value;
    SampleBitsMeaning(axis, grey, 0);
    PlaceValueBound(bits);
    if |axis| >= 26 {
      FiveSamples(|axis|);
    }
  }

  /** The rows add up exactly when no outcome is an exception: one row per
      outcome that carries one, each taken from such an outcome. Otherwise the
      exception is the first one in order. */
  lemma {:induction false} CollectMeaning(outcomes: seq<Result<Option<MarkerRow>>>)
    ensures Collect(outcomes).Ok? <==> forall i :: 0 <= i < |outcomes| ==> outcomes[i].Ok?
    ensures Collect(outcomes).Ok? ==> |Collect(outcomes).value| <= |outcomes|
    ensures Collect(outcomes).Ok? ==>
      forall k :: 0 <= k < |Collect(outcomes).value| ==> Ok(Some(Collect(outcomes).value[k])) in outcomes
    ensures Collect(outcomes).Err? ==>
      exists i :: 0 <= i < |outcomes| && outcomes[i].Err? && Collect(outcomes).fault == outcomes[i].fault &&
        forall j :: 0 <= j < i ==> outcomes[j].Ok?
  {
    if outcomes != [] {
      var n := |outcomes| - 1;
      var init := outcomes[..n];
      CollectMeaning(init);
      assert forall i :: 0 <= i < n ==> init[i] == outcomes[i];
      if Collect(init).Err? {
        var i :| 0 <= i < n && init[i].Err? && Collect(init).fault == init[i].fault && forall j :: 0 <= j < i ==> init[j].Ok?;
        assert outcomes[i].Err?;
      } else if outcomes[n].Err? {
        assert outcomes[n].Err? && forall j :: 0 <= j < n ==> outcomes[j].Ok?;
      } else {
        var rows := Collect(outcomes).value;
        forall k | 0 <= k < |rows|
          ensures Ok(Some(rows[k])) in outcomes
        {
          if k < |Collect(init).value| {
            assert Ok(Some(rows[k])) in init;
          } else {
            assert Ok(Some(rows[k])) == outcomes[n];
          }
        }
      }
    }
  }

  /** When no outcome is an exception, every row-carrying outcome appears in
      the rows, in order: the row of outcome i sits after the rows of the
      outcomes before it, and nothing else is there. */
  lemma {:induction false} CollectOrder(outcomes: seq<Result<Option<MarkerRow>>>)
    requires Collect(outcomes).Ok?
    ensures |Collect(outcomes).value| == RowCount(outcomes)
    ensures forall i :: 0 <= i < |outcomes| && outcomes[i].Ok? && outcomes[i].value.Some? ==>
      RowCount(outcomes[..i]) < |Collect(outcomes).value| &&
      Collect(outcomes).value[RowCount(outcomes[..i])] == outcomes[i].value.value
  {
    if outcomes != [] {
      var n := |outcomes| - 1;
      var init := outcomes[..n];
      assert Collect(init).Ok?;
      CollectOrder(init);
      var rows, head := Collect(outcomes).value, Collect(init).value;
      assert rows[..|head|] == head;
      forall i | 0 <= i < |outcomes| && outcomes[i].Ok? && outcomes[i].value.Some?
        ensures RowCount(outcomes[..i]) < |rows| && rows[RowCount(outcomes[..i])] == outcomes[i].value.value
      {
        if i < n {
          assert outcomes[..i] == init[..i];
          assert init[i] == outcomes[i];
        } else {
          assert outcomes[..i] == init;
        }
      }
    }
  }

  /** A frame produces its rows exactly when no polygon raises; there is at
      most one row per polygon, each stamped with the frame number. */
  lemma FrameRowsMeaning(polys: seq<seq<Point>>, grey: Image, frame: int)
    ensures FrameRows(polys, grey, frame).Ok? <==> forall i :: 0 <= i < |polys| ==> PolygonRow(polys[i], grey, frame).Ok?
    ensures FrameRows(polys, grey, frame).Ok? ==>
      var rows := FrameRows(polys, grey, frame).value;
      |rows| <= |polys| && forall k :: 0 <= k < |rows| ==> rows[k].frame == frame
  {
    var outcomes := Outcomes(polys, grey, frame);
    CollectMeaning(outcomes);
    assert forall i :: 0 <= i < |polys| ==> outcomes[i] == PolygonRow(polys[i], grey, frame);
    if FrameRows(polys, grey, frame).Ok? {
      RowsStamped(polys, grey, frame, FrameRows(polys, grey, frame).value);
    }
  }

  /** Every polygon's row is in the frame's rows, in polygon order: the row
      of polygon i comes right after the rows of the polygons before it, and
      there are no other rows. */
  lemma FrameRowsOrder(polys: seq<seq<Point>>, grey: Image, frame: int)
    requires FrameRows(polys, grey, frame).Ok?
    ensures |FrameRows(polys, grey, frame).value| == RowCount(Outcomes(polys, grey, frame))
    ensures forall i :: 0 <= i < |polys| && PolygonRow(polys[i], grey, frame).Ok? && PolygonRow(polys[i], grey, frame).value.Some? ==>
      var at := RowCount(Outcomes(polys, grey, frame)[..i]);
      at < |FrameRows(polys, grey, frame).value| &&
      FrameRows(polys, grey, frame).value[at] == PolygonRow(polys[i], grey, frame).value.value
  {
    var outcomes := Outcomes(polys, grey, frame);
    CollectOrder(outcomes);
    assert forall i :: 0 <= i < |polys| ==> outcomes[i] == PolygonRow(polys[i], grey, frame);
  }

  lemma RowsStamped(polys: seq<seq<Point>>, grey: Image, frame: int, rows: seq<MarkerRow>)
    requires forall k :: 0 <= k < |rows| ==> Ok(Some(rows[k])) in Outcomes(polys, grey, frame)
    ensures forall k :: 0 <= k < |rows| ==> rows[k].frame == frame
  {
    var outcomes := Outcomes(polys, grey, frame);
    forall k | 0 <= k < |rows|
      ensures rows[k].frame == frame
    {
      assert Ok(Some(rows[k])) in outcomes;
      var i :| 0 <= i < |outcomes| && outcomes[i] == Ok(Some(rows[k]));
      PolygonRowMeaning(polys[i], grey, frame);
    }
  }
}

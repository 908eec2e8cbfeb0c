/** Reading the code slots along the marker axis: the sampling loop of
    `detectAndLabelMarkers`, which picks positions at fixed fractions of the
    axis length, nudges them towards the corner, and thresholds the grey
    value found there. */
module Sampling {
  import opened Common

  /** The greyscale frame, indexed grey[y][x] as numpy's gray[y, x]. */
  type Image = seq<seq<int>>

  /** numpy indexing along one axis of length `len`: a negative index counts
      from the end, anything outside [-len, len) raises IndexError. */
  function AxisIndex(i: int, len: nat): (r: Option<nat>)
    ensures r.Some? <==> -(len as int) <= i < len
    ensures r.Some? ==> r.value < len && (r.value == i || r.value == i + len)
    ensures r.Some? ==> r.value == (i + len) % len
  {
    if 0 <= i < len then
      DivUnique(i + len, len, 1);
      Some(i)
    else if -(len as int) <= i < 0 then
      DivUnique(i + len, len, 0);
      Some(i + len)
    else None
  }

  /** gray[p.y, p.x], or None where numpy raises IndexError: along each
      axis a coordinate in [-len, 0) counts from the end, and one outside
      [-len, len) raises. */
  function Pixel(grey: Image, p: Point): (r: Option<int>)
    ensures 0 <= p.y < |grey| && 0 <= p.x < |grey[p.y]| ==> r == Some(grey[p.y][p.x])
    ensures r.Some? <==>
      -|grey| <= p.y < |grey| &&
      -|grey[(p.y + |grey|) % |grey|]| <= p.x < |grey[(p.y + |grey|) % |grey|]|
    ensures r.Some? ==>
      var row := grey[(p.y + |grey|) % |grey|];
      r.value == row[(p.x + |row|) % |row|]
  {
    match AxisIndex(p.y, |grey|)
    case None => None
    case Some(row) =>
      match AxisIndex(p.x, |grey[row]|)
      case None => None
      case Some(col) => Some(grey[row][col])
  }

  /** A greyscale frame as numpy holds it: every row has the same width. */
  predicate Rectangular(grey: Image, width: nat) {
    forall y :: 0 <= y < |grey| ==> |grey[y]| == width
  }

  /** In a frame of height H and width W a read succeeds exactly for
      -H <= y < H and -W <= x < W, negative coordinates wrapping around. */
  lemma PixelRange(grey: Image, width: nat, p: Point)
    requires Rectangular(grey, width)
    ensures Pixel(grey, p).Some? <==> -|grey| <= p.y < |grey| && -(width as int) <= p.x < width
    ensures Pixel(grey, p).Some? ==> Pixel(grey, p).value == grey[(p.y + |grey|) % |grey|][(p.x + width) % width]
  {
  }

  /** A white slot reads above 180 and gives bit '0'; anything else '1'. */
  const WhiteThreshold: int := 180

  function Bit(v: int): (r: char)
    ensures r == '0' || r == '1'
    ensures r == '0' <==> v > WhiteThreshold
  {
    if v > WhiteThreshold then '0' else '1'
  }

  /** `int(n / 10 * 1.95)` in integer form: the distance between two sampling
      positions. */
  function CycleJump(n: nat): (r: nat)
    ensures 1000 * r <= 195 * n < 1000 * r + 1000
    ensures 5 * r <= n
  {
    DivBounds(195 * n, 1000);
    n * 195 / 1000
  }

  /** Python's `range(start, stop, step)` for a positive step. */
  function Range(start: int, stop: int, step: nat): (r: seq<int>)
    requires step > 0
    decreases stop - start
    ensures |r| > 0 <==> start < stop
    ensures |r| > 0 ==> r[0] == start
    ensures forall k :: 0 <= k < |r| ==> start <= r[k] < stop
  {
    if start >= stop then [] else [start] + Range(start + step, stop, step)
  }

  /** `range` yields one value per started step before `stop`. */
  lemma {:induction false} RangeLength(start: int, stop: int, step: nat)
    requires step > 0
    decreases stop - start
    ensures |Range(start, stop, step)| == if start < stop then (stop - start - 1) / step + 1 else 0
  {
    if start < stop {
      var n := stop - start - 1;
      if start + step < stop {
        RangeLength(start + step, stop, step);
        var c := (n - step) / step;
        assert step * c <= n - step < step * c + step by { DivBounds(n - step, step); }
        assert step * (c + 1) == step * c + step;
        DivUnique(n, step, c + 1);
      } else {
        DivUnique(n, step, 0);
      }
    }
  }

  lemma MulPred(j: int, step: int)
    ensures (j - 1) * step + step == j * step
  {
  }

  /** The positional correction: the first position is scaled by 0.9, the
      next four by 0.85, and later ones are left as they are (integer forms
      of `int(i * 0.9)` and `int(i * 0.85)`). */
  function Corrected(actCycle: nat, i: int): (r: int)
    ensures 0 <= i ==> 0 <= r <= i
  {
    if 1 <= actCycle <= 4 then i * 85 / 100
    else if actCycle == 0 then i * 9 / 10
    else i
  }

  /** The corrected positions read from centre `c` on, when `k` positions
      have been read before it: one per centre of `range(c, n, step)`. */
  function Slots(n: nat, c: nat, k: nat, step: nat): (r: seq<nat>)
    requires step > 0
    decreases n - c
    ensures |r| == |Range(c, n, step)|
    ensures forall j :: 0 <= j < |r| ==> r[j] < n
  {
    if c >= n then [] else [Corrected(k, c)] + Slots(n, c + step, k + 1, step)
  }

  /** The corrected axis positions that are read, in sampling order. */
  function SampleIndices(n: nat): (r: seq<nat>)
    requires CycleJump(n) > 0
    ensures |r| == |Range(CycleJump(n), n, CycleJump(n))| && |r| >= 1
    ensures forall j :: 0 <= j < |r| ==> r[j] < n
  {
    Slots(n, CycleJump(n), 0, CycleJump(n))
  }

  /** The j-th value of `range(start, stop, step)` is start + j * step. */
  lemma {:induction false} RangeElements(start: int, stop: int, step: nat, j: nat)
    requires step > 0 && j < |Range(start, stop, step)|
    decreases j
    ensures Range(start, stop, step)[j] == start + j * step
  {
    if j > 0 {
      var rest := Range(start + step, stop, step);
      assert Range(start, stop, step)[j] == rest[j - 1];
      RangeElements(start + step, stop, step, j - 1);
      MulPred(j, step);
    }
  }

  /** Position k + j of the read comes from the j-th centre. */
  lemma {:induction false} SlotsElements(n: nat, c: nat, k: nat, step: nat, j: nat)
    requires step > 0 && j < |Range(c, n, step)|
    decreases j
    ensures Slots(n, c, k, step)[j] == Corrected(k + j, Range(c, n, step)[j])
  {
    if j > 0 {
      var rest := Slots(n, c + step, k + 1, step);
      assert Slots(n, c, k, step)[j] == rest[j - 1];
      assert Range(c, n, step)[j] == Range(c + step, n, step)[j - 1];
      SlotsElements(n, c + step, k + 1, step, j - 1);
    }
  }

  /** The j-th position read is the j-th multiple of the step, corrected by
      the factor for slot j. */
  lemma SampleIndicesMeaning(n: nat, j: nat)
    requires CycleJump(n) > 0 && j < |SampleIndices(n)|
    ensures SampleIndices(n)[j] == Corrected(j, (j + 1) * CycleJump(n))
    ensures (j + 1) * CycleJump(n) < n
  {
    var c := CycleJump(n);
    SlotsElements(n, c, 0, c, j);
    RangeElements(c, n, c, j);
    assert c + j * c == (j + 1) * c;
  }

  /** Position i lies on the axis and its pixel within numpy's index range
      (negative coordinates wrap). */
  predicate Readable(axis: seq<Point>, grey: Image, i: nat) {
    i < |axis| && Pixel(grey, axis[i]).Some?
  }

  /** The bit read at axis position i. */
  function ReadBit(axis: seq<Point>, grey: Image, i: nat): char
    requires Readable(axis, grey, i)
  {
    Bit(Pixel(grey, axis[i]).value)
  }

  /** The bits read so far in front of what the rest of the read gives. */
  function Prepend(bits: seq<char>, rest: Result<seq<char>>): Result<seq<char>> {
    match rest
    case Err(f) => Err(f)
    case Ok(more) => Ok(bits + more)
  }

  /** Reading the given axis positions in order: the bits read, or
      IndexError at the first one that lies outside numpy's index range. */
  function ReadSlots(axis: seq<Point>, grey: Image, slots: seq<nat>): Result<seq<char>>
  {
    if slots == [] then Ok([])
    else if !Readable(axis, grey, slots[0]) then Err(IndexError)
    else Prepend([ReadBit(axis, grey, slots[0])], ReadSlots(axis, grey, slots[1..]))
  }

  /** Reading succeeds exactly when every position lies within numpy's index
      range (negative coordinates wrap); it then yields one bit per position,
      in order, and otherwise IndexError. */
  lemma {:induction false} ReadSlotsMeaning(axis: seq<Point>, grey: Image, slots: seq<nat>)
    ensures ReadSlots(axis, grey, slots).Ok? <==> forall j :: 0 <= j < |slots| ==> Readable(axis, grey, slots[j])
    ensures ReadSlots(axis, grey, slots).Err? ==> ReadSlots(axis, grey, slots).fault == IndexError
    ensures ReadSlots(axis, grey, slots).Ok? ==> |ReadSlots(axis, grey, slots).value| == |slots|
    ensures ReadSlots(axis, grey, slots).Ok? ==>
      forall j :: 0 <= j < |slots| ==> ReadSlots(axis, grey, slots).value[j] == ReadBit(axis, grey, slots[j])
  {
    if slots != [] {
      var tail := slots[1..];
      ReadSlotsMeaning(axis, grey, tail);
      assert forall j :: 0 < j < |slots| ==> slots[j] == tail[j - 1];
    }
  }

  lemma PrependNothing(rest: Result<seq<char>>)
    ensures Prepend([], rest) == rest
  {
    if rest.Ok? {
      assert [] + rest.value == rest.value;
    }
  }

  /** Reading from centre c < n reads the corrected position of c first,
      then goes on from the next centre. */
  lemma ReadFromCentre(axis: seq<Point>, grey: Image, c: nat, k: nat, step: nat)
    requires step > 0 && c < |axis|
    ensures var t := Corrected(k, c);
      var later := ReadSlots(axis, grey, Slots(|axis|, c + step, k + 1, step));
      ReadSlots(axis, grey, Slots(|axis|, c, k, step)) ==
        if Readable(axis, grey, t) then Prepend([ReadBit(axis, grey, t)], later) else Err(IndexError)
  {
    var here := Slots(|axis|, c, k, step);
    assert here[0] == Corrected(k, c) && here[1..] == Slots(|axis|, c + step, k + 1, step);
  }

  lemma PrependTwice(bits: seq<char>, b: char, rest: Result<seq<char>>)
    ensures Prepend(bits, Prepend([b], rest)) == Prepend(bits + [b], rest)
  {
    if rest.Ok? {
      assert bits + ([b] + rest.value) == (bits + [b]) + rest.value;
    }
  }

  /** The bit string the sampling loop builds, or the exception it raises:
      ValueError when the step is 0, IndexError when a sampled pixel lies
      outside the frame. */
  function SampleBits(axis: seq<Point>, grey: Image): (r: Result<seq<char>>)
    ensures r == Err(ValueError) <==> |axis| <= 5
    ensures r.Ok? ==> IsBinary(r.value) && |r.value| >= 1
  {
    var n := |axis|;
    if CycleJump(n) == 0 then Err(ValueError)
    else
      var slots := SampleIndices(n);
      ReadSlotsMeaning(axis, grey, slots);
      CycleJumpZero(n);
      ReadSlots(axis, grey, slots)
  }

  /** The sampling loop: `for intervalCentreIndex in range(cycleJump,
      markerAxisLen, cycleJump)` with the `actCycle` counter and the
      `binaryRepr` accumulator. */
  method SampleCode(markerAxis: seq<Point>, grey: Image) returns (r: Result<seq<char>>)
    ensures r == SampleBits(markerAxis, grey)
  {
    var markerAxisLen := |markerAxis|;
    var actCycle := 0;
    var cycleJump := CycleJump(markerAxisLen);
    if cycleJump == 0 {
      // range() arg 3 must not be zero
      return Err(ValueError);
    }
    var binaryRepr := "";
    ghost var whole := ReadSlots(markerAxis, grey, SampleIndices(markerAxisLen));
    PrependNothing(whole);
    var intervalCentreIndex := cycleJump;
    while intervalCentreIndex < markerAxisLen
      invariant whole == Prepend(binaryRepr,
        ReadSlots(markerAxis, grey, Slots(markerAxisLen, intervalCentreIndex, actCycle, cycleJump)))
      decreases markerAxisLen - intervalCentreIndex
    {
      // the perspective correction of the slot centre
      var tempIndex := Corrected(actCycle, intervalCentreIndex);
      ghost var later := Slots(markerAxisLen, intervalCentreIndex + cycleJump, actCycle + 1, cycleJump);
      ReadFromCentre(markerAxis, grey, intervalCentreIndex, actCycle, cycleJump);
      var value := Pixel(grey, markerAxis[tempIndex]);
      if value.None? {
        assert whole == Err(IndexError);
        return Err(IndexError);
      }
      PrependTwice(binaryRepr, Bit(value.value), ReadSlots(markerAxis, grey, later));
      actCycle := actCycle + 1;
      binaryRepr := binaryRepr + [Bit(value.value)];
      intervalCentreIndex := intervalCentreIndex + cycleJump;
    }
    assert binaryRepr + [] == binaryRepr;
    assert whole == Ok(binaryRepr);
    return Ok(binaryRepr);
  }

  /** Bit j is '0' exactly when the grey value at the j-th sampled axis pixel,
      read as [y][x], exceeds 180. */
  lemma SampleBitsMeaning(axis: seq<Point>, grey: Image, j: nat)
    requires SampleBits(axis, grey).Ok?
    ensures |axis| > 5 && |SampleBits(axis, grey).value| == |SampleIndices(|axis|)|
    ensures j < |SampleIndices(|axis|)| ==>
      var p := axis[SampleIndices(|axis|)[j]];
      Pixel(grey, p).Some? && (SampleBits(axis, grey).value[j] == '0' <==> Pixel(grey, p).value > WhiteThreshold)
  {
    CycleJumpZero(|axis|);
    ReadSlotsMeaning(axis, grey, SampleIndices(|axis|));
  }

  /** The step is zero, and `range` raises, exactly for axes of at most five
      pixels. */
  lemma CycleJumpZero(n: nat)
    ensures CycleJump(n) == 0 <==> n <= 5
  {
    if n <= 5 { DivUnique(n * 195, 1000, 0); }
  }

  /** Every axis of 26 pixels or more is sampled exactly five times. */
  lemma FiveSamples(n: nat)
    requires n >= 26
    ensures CycleJump(n) > 0 && |SampleIndices(n)| == 5
  {
    var c := CycleJump(n);
    assert 1000 * c <= 195 * n < 1000 * c + 1000 by { DivBounds(195 * n, 1000); }
    assert 5 * c <= n - 1 < 6 * c;
    RangeLength(c, n, c);
    DivUnique(n - c - 1, c, 4);
  }

  /** Shorter axes can be sampled more often: 20 and 25 pixels give six. */
  lemma SixSamples()
    ensures |SampleIndices(20)| == 6 && |SampleIndices(25)| == 6
  {
    DivUnique(20 * 195, 1000, 3);
    RangeLength(3, 20, 3);
    DivUnique(16, 3, 5);
    DivUnique(25 * 195, 1000, 4);
    RangeLength(4, 25, 4);
    DivUnique(20, 4, 5);
  }
}

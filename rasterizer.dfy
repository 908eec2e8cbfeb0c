/** The Bresenham-style line generator of the detector
    (`bresenhamLineGenerator`): the pixels from (x0, y0) towards (x1, y1),
    with the step directions exactly as the source derives them. */
module Rasterizer {
  import opened Common

  /** A unit step direction along one coordinate. */
  datatype Dir = Forward | Backward {
    /** The source's integer form of the direction: +1 or -1. */
    function Unit(): int { if Forward? then 1 else -1 }
  }

  /** Coordinate `c` moved `n` unit steps in direction `d`. */
  function Go(c: int, n: int, d: Dir): int {
    if d.Forward? then c + n else c - n
  }

  /** The two step directions fixed once per call. The source's `xStep`
      always drives the minor axis (x after the optional swap) and its
      `yStep` the major axis (y after the swap), whichever branch runs. */
  datatype Steps = Steps(minor: Dir, major: Dir)

  /** `slope < 1` for slope = dy / dx and the sentinel 10.0 when dx = 0. */
  predicate Shallow(dx: nat, dy: nat) { dx > 0 && dy < dx }

  /** `slope > 1` for the same slope. */
  predicate Steeper(dx: nat, dy: nat) { dx == 0 || dy > dx }

  /** The step directions as the source derives them (`slope >= 1` is
      `!Shallow`). For a shallow line the major axis (the original x) always
      steps forward; they agree with the corrected directions except on
      leftward shallow lines and descending diagonals drawn right to left. */
  function SourceSteps(x0: int, y0: int, x1: int, y1: int): (r: Steps)
    ensures Shallow(Abs(x1 - x0), Abs(y1 - y0)) ==> r.major == Forward
    ensures var dx, dy := Abs(x1 - x0), Abs(y1 - y0);
      r == CorrectedSteps(x0, y0, x1, y1) <==> !(x0 > x1 && (dy < dx || (dy == dx && y0 > y1)))
  {
    var dx, dy := Abs(x1 - x0), Abs(y1 - y0);
    var yStep := if !Shallow(dx, dy) && y0 > y1 then Backward else Forward;
    var xStep :=
      if ((x0 > x1 || y0 > y1) && Shallow(dx, dy))
         || (Steeper(dx, dy) && x0 > x1 && y0 > y1)
         || (x0 > x1 && y0 < y1)
      then Backward else Forward;
    Steps(xStep, yStep)
  }

  /** The direction that leads from `a` to `b`. */
  function Toward(a: int, b: int): Dir { if a <= b then Forward else Backward }

  /** Step directions that always lead to the far endpoint: each axis steps
      towards its own endpoint coordinate. */
  function CorrectedSteps(x0: int, y0: int, x1: int, y1: int): Steps {
    if Shallow(Abs(x1 - x0), Abs(y1 - y0)) then Steps(Toward(y0, y1), Toward(x0, x1))
    else Steps(Toward(x0, x1), Toward(y0, y1))
  }

  /** Error term `p` and number of minor-axis advances so far. */
  datatype ErrorTerm = ErrorTerm(p: int, advances: nat)

  /** The error term before iteration `k` of the loop, for a major span
      `major` (the loop count) and a minor span `minor`: it starts at
      2*minor - major; each iteration advances the minor axis when p >= 0
      and then adds 2*minor, less 2*major when it advanced. */
  function ErrorAfter(k: nat, major: int, minor: int): (e: ErrorTerm)
  {
    if k == 0 then ErrorTerm(2 * minor - major, 0)
    else
      var prev := ErrorAfter(k - 1, major, minor);
      if prev.p >= 0 then ErrorTerm(prev.p + 2 * minor - 2 * major, prev.advances + 1)
      else ErrorTerm(prev.p + 2 * minor, prev.advances)
  }

  /** After k iterations the minor axis has advanced floor((2kd + D) / 2D)
      times, D the major span and d the minor span, and the error term is
      what is left of the rounding. */
  lemma {:induction false} AdvancesClosedForm(k: nat, major: int, minor: int)
    requires 0 <= minor <= major && 0 < major
    ensures ErrorAfter(k, major, minor).advances == (2 * k * minor + major) / (2 * major)
    ensures ErrorAfter(k, major, minor).p
            == 2 * (k + 1) * minor - major - 2 * major * ErrorAfter(k, major, minor).advances
  {
    if k == 0 {
      DivUnique(major, 2 * major, 0);
    } else {
      AdvancesClosedForm(k - 1, major, minor);
      var prev := ErrorAfter(k - 1, major, minor);
      var a, m := prev.advances, 2 * major;
      var q := 2 * (k - 1) * minor + major;
      assert 2 * k * minor + major == q + 2 * minor by { Distribute(k - 1, minor); }
      assert 2 * (k + 1) * minor == 2 * k * minor + 2 * minor by { Distribute(k, minor); }
      assert prev.p == q + 2 * minor - m * a - m;
      AdvanceStep(q, m, a, 2 * minor, prev.p);
    }
  }

  /** One iteration of the error term: with a = floor(q / m) minor advances
      so far and p the error left, the next advance happens exactly when
      p >= 0, and then a + 1 = floor((q + d) / m). */
  lemma AdvanceStep(q: int, m: int, a: int, d: int, p: int)
    requires 0 <= d <= m && m * a <= q < m * a + m
    requires p == q + d - m * a - m
    ensures p >= 0 ==> (q + d) / m == a + 1 && p + d - m == q + 2 * d - m * (a + 1) - m
    ensures p < 0 ==> (q + d) / m == a
  {
    assert q == m * (q / m) + q % m;
    assert m * (a + 1) == m * a + m;
    if p >= 0 {
      DivUnique(q + d, m, a + 1);
    } else {
      DivUnique(q + d, m, a);
    }
  }

  lemma Distribute(k: int, minor: int)
    ensures 2 * (k + 1) * minor == 2 * k * minor + 2 * minor
  {
  }

  /** Over the whole loop the minor axis advances exactly `minor` times. */
  lemma MinorAdvancesTotal(major: nat, minor: nat)
    requires minor <= major
    ensures ErrorAfter(major, major, minor).advances == minor
  {
    if major > 0 {
      AdvancesClosedForm(major, major, minor);
      DivUnique(2 * major * minor + major, 2 * major, minor);
    }
  }

  /** Point k of the line: k steps along the major axis and as many minor
      advances as the error term has made by then, in (x, y) order. */
  function LinePoint(x0: int, y0: int, x1: int, y1: int, s: Steps, k: nat): Point {
    var dx, dy := Abs(x1 - x0), Abs(y1 - y0);
    if Shallow(dx, dy) then Point(Go(x0, k, s.major), Go(y0, ErrorAfter(k, dx, dy).advances, s.minor))
    else Point(Go(x0, ErrorAfter(k, dy, dx).advances, s.minor), Go(y0, k, s.major))
  }

  /** Number of loop iterations: the y-span after the optional swap. */
  function Span(x0: int, y0: int, x1: int, y1: int): nat {
    Max(Abs(x1 - x0), Abs(y1 - y0))
  }

  /** The pixels the generator returns for the given step directions. */
  function Line(x0: int, y0: int, x1: int, y1: int, s: Steps): (r: seq<Point>)
    ensures |r| == Span(x0, y0, x1, y1) + 1
    ensures r[0] == Point(x0, y0)
  {
    seq(Span(x0, y0, x1, y1) + 1, k requires 0 <= k => LinePoint(x0, y0, x1, y1, s, k))
  }

  /** The body of `bresenhamLineGenerator` after the step directions are
      fixed: the optional coordinate swap, then the loop of the slope class. */
  method Trace(x0: int, y0: int, x1: int, y1: int, steps: Steps) returns (linePixel: seq<Point>)
    ensures linePixel == Line(x0, y0, x1, y1, steps)
  {
    var dx, dy := Abs(x1 - x0), Abs(y1 - y0);
    // the coordinates after the optional swap
    var sx0, sx1, sy0, sy1 := x0, x1, y0, y1;
    var slopeSmallerThanOne := false;
    if Shallow(dx, dy) {
      sx0, sx1, sy0, sy1 := y0, y1, x0, x1;
      dx, dy := Abs(sx1 - sx0), Abs(sy1 - sy0);
      slopeSmallerThanOne := true;
    }
    var p0 := 2 * dx as int - dy;
    linePixel := Walk(x0, y0, x1, y1, steps, slopeSmallerThanOne, sx0, sy0, dx, dy, p0);
  }

  /** One of the two loops of the generator, on the swapped coordinates: the
      shallow loop appends (y, x) and the steep one (x, y), and they agree in
      everything else. */
  method Walk(x0: int, y0: int, x1: int, y1: int, steps: Steps, slopeSmallerThanOne: bool,
              sx0: int, sy0: int, dx: nat, dy: nat, p0: int) returns (linePixel: seq<Point>)
    requires slopeSmallerThanOne == Shallow(Abs(x1 - x0), Abs(y1 - y0))
    requires slopeSmallerThanOne ==> sx0 == y0 && sy0 == x0 && dx == Abs(y1 - y0) && dy == Abs(x1 - x0)
    requires !slopeSmallerThanOne ==> sx0 == x0 && sy0 == y0 && dx == Abs(x1 - x0) && dy == Abs(y1 - y0)
    requires p0 == 2 * dx - dy
    ensures linePixel == Line(x0, y0, x1, y1, steps)
  {
    var flag := true;
    linePixel := [Point(x0, y0)];
    var x, y := sx0, sy0;
    // unbound in the source until the first iteration sets them
    var p, xPrevious, pPrevious := 0, 0, 0;
    for i := 0 to dy
      invariant |linePixel| == i + 1
      invariant flag <==> i == 0
      invariant x == Go(sx0, ErrorAfter(i, dy, dx).advances, steps.minor)
      invariant y == Go(sy0, i, steps.major)
      invariant !flag ==> p == ErrorAfter(i, dy, dx).p
      invariant forall k :: 0 <= k <= i ==> linePixel[k] == LinePoint(x0, y0, x1, y1, steps, k)
    {
      if flag {
        xPrevious, pPrevious, p := sx0, p0, p0;
        flag := false;
      } else {
        xPrevious, pPrevious := x, p;
      }
      if p >= 0 {
        x := x + steps.minor.Unit();
      }
      assert Abs(x - xPrevious) == if pPrevious >= 0 then 1 else 0;
      p := pPrevious + 2 * dx - 2 * dy * Abs(x - xPrevious);
      assert p == if pPrevious >= 0 then pPrevious + 2 * dx - 2 * dy else pPrevious + 2 * dx;
      y := y + steps.major.Unit();
      linePixel := linePixel + [if slopeSmallerThanOne then Point(y, x) else Point(x, y)];
    }
  }

  /** `bresenhamLineGenerator(x0, y0, x1, y1)` as written. */
  method Rasterize(x0: int, y0: int, x1: int, y1: int) returns (linePixel: seq<Point>)
    ensures linePixel == Line(x0, y0, x1, y1, SourceSteps(x0, y0, x1, y1))
  {
    linePixel := Trace(x0, y0, x1, y1, SourceSteps(x0, y0, x1, y1));
  }

  /** The same generator with step directions that lead to (x1, y1). */
  method RasterizeCorrected(x0: int, y0: int, x1: int, y1: int) returns (linePixel: seq<Point>)
    ensures linePixel == Line(x0, y0, x1, y1, CorrectedSteps(x0, y0, x1, y1))
  {
    linePixel := Trace(x0, y0, x1, y1, CorrectedSteps(x0, y0, x1, y1));
  }

  /** Consecutive pixels are 8-neighbours: the major coordinate (x for a
      shallow line, y otherwise) changes by exactly one, the other by at
      most one. */
  lemma LineSteps(x0: int, y0: int, x1: int, y1: int, s: Steps, k: nat)
    requires k < Span(x0, y0, x1, y1)
    ensures var a, b := Line(x0, y0, x1, y1, s)[k], Line(x0, y0, x1, y1, s)[k + 1];
      Abs(b.x - a.x) <= 1 && Abs(b.y - a.y) <= 1 &&
      (if Shallow(Abs(x1 - x0), Abs(y1 - y0)) then Abs(b.x - a.x) == 1 else Abs(b.y - a.y) == 1)
  {
  }

  /** The last pixel: the major coordinate has moved the full major span and
      the minor coordinate the full minor span, each in its step direction. */
  lemma LineEnd(x0: int, y0: int, x1: int, y1: int, s: Steps)
    ensures var dx, dy := Abs(x1 - x0), Abs(y1 - y0);
      Line(x0, y0, x1, y1, s)[Span(x0, y0, x1, y1)] ==
        if Shallow(dx, dy) then Point(Go(x0, dx, s.major), Go(y0, dy, s.minor))
        else Point(Go(x0, dx, s.minor), Go(y0, dy, s.major))
  {
    var dx, dy := Abs(x1 - x0), Abs(y1 - y0);
    if Shallow(dx, dy) { MinorAdvancesTotal(dx, dy); } else { MinorAdvancesTotal(dy, dx); }
  }

  /** The generator as written reaches (x1, y1) except for leftward shallow
      lines and descending exact diagonals drawn right to left. */
  lemma SourceLineEnd(x0: int, y0: int, x1: int, y1: int)
    ensures var dx, dy := Abs(x1 - x0), Abs(y1 - y0);
      Line(x0, y0, x1, y1, SourceSteps(x0, y0, x1, y1))[Span(x0, y0, x1, y1)] == Point(x1, y1)
      <==> !(x0 > x1 && (dy < dx || (dy == dx && y0 > y1)))
  {
    LineEnd(x0, y0, x1, y1, SourceSteps(x0, y0, x1, y1));
  }

  /** With corrected step directions every line ends at (x1, y1). */
  lemma CorrectedLineEnd(x0: int, y0: int, x1: int, y1: int)
    ensures Line(x0, y0, x1, y1, CorrectedSteps(x0, y0, x1, y1))[Span(x0, y0, x1, y1)] == Point(x1, y1)
  {
    LineEnd(x0, y0, x1, y1, CorrectedSteps(x0, y0, x1, y1));
  }

  /** A horizontal segment is stepped along x, one pixel per column: the
      loop runs over the larger span, not over the y-span of the input. */
  lemma HorizontalLine()
    ensures |Line(0, 0, 10, 0, SourceSteps(0, 0, 10, 0))| == 11
    ensures forall k :: 0 <= k < 11 ==> Line(0, 0, 10, 0, SourceSteps(0, 0, 10, 0))[k] == Point(k, 0)
  {
    forall k | 0 <= k < 11
      ensures Line(0, 0, 10, 0, SourceSteps(0, 0, 10, 0))[k] == Point(k, 0)
    {
      AdvancesClosedForm(k, 10, 0);
      DivUnique(10, 20, 0);
    }
  }

  /** Two inputs on which the source's line runs away from (x1, y1):
      (10,0)->(0,0) ends at (20,0), and (4,4)->(0,0) ends at (8,0). */
  lemma SourceLineMisses()
    ensures Line(10, 0, 0, 0, SourceSteps(10, 0, 0, 0))[10] == Point(20, 0)
    ensures Line(4, 4, 0, 0, SourceSteps(4, 4, 0, 0))[4] == Point(8, 0)
  {
    LineEnd(10, 0, 0, 0, SourceSteps(10, 0, 0, 0));
    LineEnd(4, 4, 0, 0, SourceSteps(4, 4, 0, 0));
  }
}

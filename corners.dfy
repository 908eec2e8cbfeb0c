/** Locating the concave corner of a marker polygon and the midpoint of its
    base: the short-side selection and the pairwise scan in
    `detectAndLabelMarkers`. */
module Corners {
  import opened Common

  /** Sides shorter than 80 pixels are short: the source compares the
      Euclidean length with 80, here the squared length with 80 * 80. */
  const ShortSideSquared: int := 6400

  /** `computeDistance` squared: the square root is left out and the
      comparison made against 80 * 80 instead (see ShortSideTest). */
  function SquaredDistance(a: Point, b: Point): (r: int)
    ensures r >= 0
    ensures r == 0 <==> a == b
    ensures Abs(b.x - a.x) <= r && Abs(b.y - a.y) <= r
  {
    var dx, dy := b.x - a.x, b.y - a.y;
    assert dx * dx >= Abs(dx) by { if dx != 0 { MulMonotone(Abs(dx), 1, Abs(dx)); } }
    assert dy * dy >= Abs(dy) by { if dy != 0 { MulMonotone(Abs(dy), 1, Abs(dy)); } }
    dx * dx + dy * dy
  }

  /** Comparing the squared length with 6400 is comparing the Euclidean
      length with 80: for the non-negative root d of a squared length,
      d < 80 exactly when the squared length is below 6400. */
  lemma ShortSideTest(squared: int, d: real)
    requires d >= 0.0 && d * d == squared as real
    ensures d < 80.0 <==> squared < ShortSideSquared
  {
    if d < 80.0 {
      assert d * d <= d * 80.0;
      assert d * 80.0 < 6400.0;
    } else {
      assert d * d >= d * 80.0;
      assert d * 80.0 >= 6400.0;
    }
  }

  /** The side that starts at vertex i ends at vertex (i + 1) mod n. */
  function SideStart(poly: seq<Point>, i: nat): Point
    requires i < |poly|
  {
    poly[i]
  }

  function SideEnd(poly: seq<Point>, i: nat): Point
    requires i < |poly|
  {
    poly[(i + 1) % |poly|]
  }

  predicate IsShortSide(poly: seq<Point>, i: nat)
    requires i < |poly|
  {
    SquaredDistance(SideStart(poly, i), SideEnd(poly, i)) < ShortSideSquared
  }

  /** `matchingSides` restricted to the vertex indices from `i` on. */
  function ShortSidesFrom(poly: seq<Point>, i: nat): (r: seq<nat>)
    requires i <= |poly|
    decreases |poly| - i
    ensures forall k :: 0 <= k < |r| ==> i <= r[k] < |poly|
  {
    if i == |poly| then []
    else (if IsShortSide(poly, i) then [i] else []) + ShortSidesFrom(poly, i + 1)
  }

  /** `matchingSides`: the indices of the sides shorter than 80. */
  function ShortSides(poly: seq<Point>): (r: seq<nat>)
    ensures forall k :: 0 <= k < |r| ==> r[k] < |poly|
  {
    ShortSidesFrom(poly, 0)
  }

  lemma {:induction false} ShortSidesFromMembers(poly: seq<Point>, i: nat)
    requires i <= |poly|
    decreases |poly| - i
    ensures forall v :: v in ShortSidesFrom(poly, i) <==> i <= v < |poly| && IsShortSide(poly, v)
  {
    if i < |poly| {
      var rest := ShortSidesFrom(poly, i + 1);
      var head: seq<nat> := if IsShortSide(poly, i) then [i] else [];
      var r := ShortSidesFrom(poly, i);
      assert r == head + rest;
      ShortSidesFromMembers(poly, i + 1);
      forall v
        ensures v in r <==> i <= v < |poly| && IsShortSide(poly, v)
      {
        assert v in r <==> v in head || v in rest;
      }
    }
  }

  /** Strictly increasing, stated on neighbours. */
  predicate Ascending(s: seq<nat>) {
    forall k :: 0 < k < |s| ==> s[k - 1] < s[k]
  }

  lemma {:induction false} ShortSidesFromAscending(poly: seq<Point>, i: nat)
    requires i <= |poly|
    decreases |poly| - i
    ensures Ascending(ShortSidesFrom(poly, i))
  {
    if i < |poly| {
      var rest := ShortSidesFrom(poly, i + 1);
      var head: seq<nat> := if IsShortSide(poly, i) then [i] else [];
      var r := ShortSidesFrom(poly, i);
      assert r == head + rest;
      ShortSidesFromAscending(poly, i + 1);
      forall k | 0 < k < |r|
        ensures r[k - 1] < r[k]
      {
        if k - 1 < |head| {
          assert r[k - 1] == i && r[k] == rest[0];
        } else {
          var j := k - |head|;
          assert r[k - 1] == rest[j - 1] && r[k] == rest[j];
        }
      }
    }
  }

  /** `matchingSides` lists exactly the short sides, in ascending order. */
  lemma ShortSidesMeaning(poly: seq<Point>)
    ensures forall v :: v in ShortSides(poly) <==> 0 <= v < |poly| && IsShortSide(poly, v)
    ensures Ascending(ShortSides(poly))
  {
    assert ShortSides(poly) == ShortSidesFrom(poly, 0);
    ShortSidesFromMembers(poly, 0);
    ShortSidesFromAscending(poly, 0);
  }

  predicate OnSide(poly: seq<Point>, i: nat, p: Point)
    requires i < |poly|
  {
    p == SideStart(poly, i) || p == SideEnd(poly, i)
  }

  /** The endpoint that sides a and b share, testing a's start before a's end,
      each against b's start and b's end. */
  function SharedEndpoint(poly: seq<Point>, a: nat, b: nat): (r: Option<Point>)
    requires a < |poly| && b < |poly|
    ensures r.Some? ==> OnSide(poly, a, r.value) && OnSide(poly, b, r.value)
    ensures r.None? <==> !OnSide(poly, b, SideStart(poly, a)) && !OnSide(poly, b, SideEnd(poly, a))
    ensures r.Some? && r.value != SideStart(poly, a) ==> !OnSide(poly, b, SideStart(poly, a))
  {
    var f1, f2 := SideStart(poly, a), SideEnd(poly, a);
    var s1, s2 := SideStart(poly, b), SideEnd(poly, b);
    if f1 == s1 || f1 == s2 then Some(f1)
    else if f2 == s1 || f2 == s2 then Some(f2)
    else None
  }

  /** The midpoint of side i, each coordinate the floor of the average
      (Python `//`, which Dafny's `/` matches for the divisor 2). */
  function Midpoint(poly: seq<Point>, i: nat): (r: Point)
    requires i < |poly|
    ensures var a, b := SideStart(poly, i), SideEnd(poly, i);
      2 * r.x <= a.x + b.x < 2 * r.x + 2 && 2 * r.y <= a.y + b.y < 2 * r.y + 2
  {
    var a, b := SideStart(poly, i), SideEnd(poly, i);
    Point((a.x + b.x) / 2, (a.y + b.y) / 2)
  }

  /** The concave corner and the midpoint of the marker's base. */
  datatype Corner = Corner(concave: Point, baseMid: Point)

  predicate IndicesIn(poly: seq<Point>, sides: seq<nat>) {
    forall k :: 0 <= k < |sides| ==> sides[k] < |poly|
  }

  /** The shared endpoint of the short side at position j and the one at
      position (j + 1) mod 3. */
  function PairCorner(poly: seq<Point>, sides: seq<nat>, j: nat): Option<Point>
    requires IndicesIn(poly, sides) && j < |sides| && (j + 1) % 3 < |sides|
  {
    SharedEndpoint(poly, sides[j], sides[(j + 1) % 3])
  }

  /** The scan over `matchingSides` from position `li` on: side li is paired
      with the side at position (li + 1) mod 3, and the first pair with a
      common endpoint wins, its base being the side at (li + 2) mod 3.
      A position outside the list is Python's IndexError. */
  function ScanFrom(poly: seq<Point>, sides: seq<nat>, li: nat): (r: Result<Option<Corner>>)
    requires IndicesIn(poly, sides) && li <= |sides|
    decreases |sides| - li
    ensures r.Err? ==> r.fault == IndexError
    ensures r.Ok? && r.value.Some? ==>
      exists j :: li <= j < |sides| && OnSide(poly, sides[j], r.value.value.concave)
    ensures r.Ok? && r.value.Some? ==>
      exists j :: 0 <= j < |sides| && r.value.value.baseMid == Midpoint(poly, sides[j])
  {
    if li == |sides| then Ok(None)
    else if (li + 1) % 3 >= |sides| then Err(IndexError)
    else match PairCorner(poly, sides, li)
      case Some(c) =>
        if (li + 2) % 3 >= |sides| then Err(IndexError)
        else Ok(Some(Corner(c, Midpoint(poly, sides[(li + 2) % 3]))))
      case None => ScanFrom(poly, sides, li + 1)
  }

  /** What the per-polygon scan reports for one polygon. */
  function Locate(poly: seq<Point>): (r: Result<Option<Corner>>)
    ensures r.Err? ==> r.fault == IndexError
    ensures r.Ok? && r.value.Some? ==>
      exists j :: 0 <= j < |ShortSides(poly)| && OnSide(poly, ShortSides(poly)[j], r.value.value.concave)
    ensures r.Ok? && r.value.Some? ==>
      exists j :: 0 <= j < |ShortSides(poly)| && r.value.value.baseMid == Midpoint(poly, ShortSides(poly)[j])
  {
    ScanFrom(poly, ShortSides(poly), 0)
  }

  /** The scan loop of `detectAndLabelMarkers`, with its early `break`. */
  method LocateCorner(poly: seq<Point>) returns (r: Result<Option<Corner>>)
    ensures r == Locate(poly)
  {
    var matchingSides := ShortSides(poly);
    var loopIndex := 0;
    while loopIndex < |matchingSides|
      invariant 0 <= loopIndex <= |matchingSides|
      invariant ScanFrom(poly, matchingSides, loopIndex) == Locate(poly)
    {
      var side := matchingSides[loopIndex];
      var firstSideFirstPoint, firstSideSecondPoint := SideStart(poly, side), SideEnd(poly, side);
      if (loopIndex + 1) % 3 >= |matchingSides| {
        assert ScanFrom(poly, matchingSides, loopIndex) == Err(IndexError);
        return Err(IndexError);
      }
      var next := matchingSides[(loopIndex + 1) % 3];
      var secondSideFirstPoint, secondSideSecondPoint := SideStart(poly, next), SideEnd(poly, next);
      var cornerFound := false;
      var concaveCornerPoint := firstSideFirstPoint;
      if firstSideFirstPoint == secondSideFirstPoint || firstSideFirstPoint == secondSideSecondPoint {
        cornerFound := true;
        concaveCornerPoint := firstSideFirstPoint;
      } else if firstSideSecondPoint == secondSideFirstPoint || firstSideSecondPoint == secondSideSecondPoint {
        cornerFound := true;
        concaveCornerPoint := firstSideSecondPoint;
      }
      if cornerFound {
        assert PairCorner(poly, matchingSides, loopIndex) == Some(concaveCornerPoint);
        if (loopIndex + 2) % 3 >= |matchingSides| {
          assert ScanFrom(poly, matchingSides, loopIndex) == Err(IndexError);
          return Err(IndexError);
        }
        var lowerSideMiddlePoint := Midpoint(poly, matchingSides[(loopIndex + 2) % 3]);
        return Ok(Some(Corner(concaveCornerPoint, lowerSideMiddlePoint)));
      }
      assert PairCorner(poly, matchingSides, loopIndex).None?;
      loopIndex := loopIndex + 1;
    }
    assert ScanFrom(poly, matchingSides, loopIndex) == Ok(None);
    return Ok(None);
  }

  /** With at least three short sides every position the scan uses exists. */
  lemma {:induction false} ScanNoError(poly: seq<Point>, sides: seq<nat>, li: nat)
    requires IndicesIn(poly, sides) && li <= |sides| && |sides| >= 3
    ensures ScanFrom(poly, sides, li).Ok?
    decreases |sides| - li
  {
    if li < |sides| && PairCorner(poly, sides, li).None? {
      ScanNoError(poly, sides, li + 1);
    }
  }

  /** The scan fails with IndexError exactly when there are one or two short
      sides. */
  lemma LocateFails(poly: seq<Point>)
    ensures Locate(poly).Err? <==> |ShortSides(poly)| == 1 || |ShortSides(poly)| == 2
    ensures Locate(poly).Err? ==> Locate(poly).fault == IndexError
  {
    var sides := ShortSides(poly);
    if |sides| >= 3 {
      ScanNoError(poly, sides, 0);
    } else if |sides| == 2 {
      if PairCorner(poly, sides, 0).None? {
        assert ScanFrom(poly, sides, 1) == Err(IndexError);
      }
    }
  }

  /** A corner found from position li on comes from the first position k at
      or after li whose pair shares an endpoint. */
  lemma {:induction false} ScanFound(poly: seq<Point>, sides: seq<nat>, li: nat) returns (k: nat)
    requires IndicesIn(poly, sides) && li <= |sides|
    requires ScanFrom(poly, sides, li).Ok? && ScanFrom(poly, sides, li).value.Some?
    ensures li <= k < |sides| && (k + 1) % 3 < |sides| && (k + 2) % 3 < |sides|
    ensures forall j :: li <= j < k ==> (j + 1) % 3 < |sides| && PairCorner(poly, sides, j).None?
    ensures PairCorner(poly, sides, k) == Some(ScanFrom(poly, sides, li).value.value.concave)
    ensures ScanFrom(poly, sides, li).value.value.baseMid == Midpoint(poly, sides[(k + 2) % 3])
    decreases |sides| - li
  {
    if PairCorner(poly, sides, li).Some? {
      k := li;
    } else {
      k := ScanFound(poly, sides, li + 1);
    }
  }

  /** A reported corner: there are at least three short sides, no earlier pair
      shares an endpoint, the corner is an endpoint of both sides of the
      first sharing pair (the first side's start preferred), and the base
      midpoint is that of the side two positions further on. */
  lemma LocateFound(poly: seq<Point>) returns (k: nat)
    requires Locate(poly).Ok? && Locate(poly).value.Some?
    ensures var sides, c := ShortSides(poly), Locate(poly).value.value;
      |sides| >= 3 && k < |sides| &&
      (forall j :: 0 <= j < k ==> PairCorner(poly, sides, j).None?) &&
      OnSide(poly, sides[k], c.concave) && OnSide(poly, sides[(k + 1) % 3], c.concave) &&
      (c.concave != SideStart(poly, sides[k]) ==> !OnSide(poly, sides[(k + 1) % 3], SideStart(poly, sides[k]))) &&
      c.baseMid == Midpoint(poly, sides[(k + 2) % 3])
  {
    LocateFails(poly);
    k := ScanFound(poly, ShortSides(poly), 0);
  }

  /** No scan from li on finds a corner exactly when no pair from li on shares
      an endpoint (given enough short sides). */
  lemma {:induction false} ScanNone(poly: seq<Point>, sides: seq<nat>, li: nat)
    requires IndicesIn(poly, sides) && li <= |sides| && |sides| >= 3
    ensures ScanFrom(poly, sides, li) == Ok(None)
            <==> forall j :: li <= j < |sides| ==> PairCorner(poly, sides, j).None?
    decreases |sides| - li
  {
    if li < |sides| {
      ScanNone(poly, sides, li + 1);
    }
  }

  /** No corner is reported exactly when there is no short side, or there are
      at least three and no pair of them shares an endpoint. */
  lemma LocateNone(poly: seq<Point>)
    ensures var sides := ShortSides(poly);
      Locate(poly) == Ok(None) <==>
        |sides| == 0 ||
        (|sides| >= 3 && forall j :: 0 <= j < |sides| ==> PairCorner(poly, sides, j).None?)
  {
    var sides := ShortSides(poly);
    LocateFails(poly);
    if |sides| >= 3 {
      ScanNone(poly, sides, 0);
    }
  }

  lemma {:induction false} ShortSidesNone(poly: seq<Point>, i: nat)
    requires i <= |poly|
    requires forall v :: i <= v < |poly| ==> !IsShortSide(poly, v)
    ensures ShortSidesFrom(poly, i) == []
    decreases |poly| - i
  {
    if i < |poly| {
      ShortSidesNone(poly, i + 1);
    }
  }

  /** A polygon whose sides are all at least 80 long has no short side and
      yields no corner. */
  lemma NoShortSideNoCorner(poly: seq<Point>)
    requires forall i :: 0 <= i < |poly| ==> SquaredDistance(SideStart(poly, i), SideEnd(poly, i)) >= ShortSideSquared
    ensures Locate(poly) == Ok(None)
  {
    ShortSidesNone(poly, 0);
  }
}

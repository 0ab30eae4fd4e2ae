/** Checker detection: matching blob centroids to the cached point
    positions and tagging them with the colour of the mask they came from. */
module Checkers {
  import opened Wrappers
  import opened Geometry
  import opened Calibration

  datatype Color = Black | White

  /** One detected checker. `point` is the matched position's index within
      its row (0..11); the row is not reported. */
  datatype CheckerObservation = CheckerObservation(point: nat, color: Color, position: Point)

  // ---------------------------------------------------------------------
  // Nearest point

  /** `k` is the first position at minimal distance from `p`. */
  predicate IsFirstNearest(pts: seq<PointPosition>, p: Point, k: int)
  {
    && 0 <= k < |pts|
    && (forall j :: 0 <= j < |pts| ==> Dist2(p, pts[k].At()) <= Dist2(p, pts[j].At()))
    && (forall j :: 0 <= j < k ==> Dist2(p, pts[k].At()) < Dist2(p, pts[j].At()))
  }

  /** Index of the first nearest position, -1 for no positions: the
      left-to-right scan that keeps a strictly smaller distance. */
  function BestIndex(pts: seq<PointPosition>, p: Point): (k: int)
    ensures -1 <= k < |pts|
    ensures k == -1 <==> pts == []
    ensures k >= 0 ==> IsFirstNearest(pts, p, k)
  {
    if |pts| == 0 then -1
    else
      var n := |pts| - 1;
      var k := BestIndex(pts[..n], p);
      assert forall j :: 0 <= j < n ==> pts[..n][j] == pts[j];
      if k == -1 || Dist2(p, pts[n].At()) < Dist2(p, pts[k].At()) then n else k
  }

  /** The position a centroid is matched to, if the nearest one is closer
      than 50 pixels. */
  function NearestPoint(pts: seq<PointPosition>, p: Point): Option<PointPosition>
  {
    var k := BestIndex(pts, p);
    if k >= 0 && Near(p, pts[k].At()) then Some(pts[k]) else None
  }

  /** No match exactly when no position is closer than 50 pixels (in
      particular when there are no positions); otherwise the match is the
      first position at minimal distance, and it is within 50 pixels. */
  lemma NearestPointCorrect(pts: seq<PointPosition>, p: Point)
    ensures NearestPoint(pts, p).None? <==> forall j :: 0 <= j < |pts| ==> !Near(p, pts[j].At())
    ensures NearestPoint(pts, p).Some? ==>
      exists k :: IsFirstNearest(pts, p, k) && Near(p, pts[k].At()) && NearestPoint(pts, p).value == pts[k]
  {
    var k := BestIndex(pts, p);
    if k >= 0 {
      assert IsFirstNearest(pts, p, k);
    }
  }

  /** A centroid lying exactly on a cached position is matched, at distance 0. */
  lemma NearestPointOnPosition(pts: seq<PointPosition>, p: Point, i: nat)
    requires i < |pts| && pts[i].At() == p
    ensures NearestPoint(pts, p).Some?
    ensures Dist2(p, NearestPoint(pts, p).value.At()) == 0.0
  {
    var k := BestIndex(pts, p);
    assert Dist2(p, pts[k].At()) <= Dist2(p, pts[i].At());
  }

  // ---------------------------------------------------------------------
  // Tagging the contours of one mask

  /** What one contour of a mask contributes: nothing when its area is at
      most 100 or no position is near its centroid. */
  function TagOne(pts: seq<PointPosition>, c: Contour, color: Color): seq<CheckerObservation>
  {
    if c.area > CheckerMinArea then
      match NearestPoint(pts, c.centroid)
      case Some(q) => [CheckerObservation(q.index, color, c.centroid)]
      case None => []
    else []
  }

  /** The observations the loop over one mask's contours pushes, in order. */
  function Tag(pts: seq<PointPosition>, cs: seq<Contour>, color: Color): seq<CheckerObservation>
  {
    if |cs| == 0 then []
    else Tag(pts, cs[..|cs| - 1], color) + TagOne(pts, cs[|cs| - 1], color)
  }

  lemma TagSnoc(pts: seq<PointPosition>, cs: seq<Contour>, i: nat, color: Color)
    requires i < |cs|
    ensures Tag(pts, cs[..i + 1], color) == Tag(pts, cs[..i], color) + TagOne(pts, cs[i], color)
  {
    assert cs[..i + 1][..i] == cs[..i];
  }

  /** A contour the checker loop accepts: area above 100 and some cached
      position within 50 pixels of its centroid. */
  predicate Accepted(pts: seq<PointPosition>, c: Contour)
  {
    c.area > CheckerMinArea && exists j :: 0 <= j < |pts| && Near(c.centroid, pts[j].At())
  }

  /** The number of accepted contours. */
  function Matched(pts: seq<PointPosition>, cs: seq<Contour>): nat
  {
    if |cs| == 0 then 0
    else Matched(pts, cs[..|cs| - 1]) + (if Accepted(pts, cs[|cs| - 1]) then 1 else 0)
  }

  /** Exactly one observation per accepted contour and none for the others. */
  lemma {:induction false} TagCount(pts: seq<PointPosition>, cs: seq<Contour>, color: Color)
    ensures |Tag(pts, cs, color)| == Matched(pts, cs)
  {
    if |cs| != 0 {
      var n := |cs| - 1;
      TagCount(pts, cs[..n], color);
      NearestPointCorrect(pts, cs[n].centroid);
      assert |TagOne(pts, cs[n], color)| == if Accepted(pts, cs[n]) then 1 else 0;
    }
  }

  /** All observations of one frame: black mask first, then white. */
  function FrameCheckers(pts: seq<PointPosition>, black: seq<Contour>, white: seq<Contour>): seq<CheckerObservation>
  {
    Tag(pts, black, Black) + Tag(pts, white, White)
  }

  /** `o` is justified by contour `j` of `cs` and cached position `k`. */
  predicate Justified(pts: seq<PointPosition>, cs: seq<Contour>, color: Color, o: CheckerObservation, j: int, k: int)
  {
    && 0 <= j < |cs| && cs[j].area > CheckerMinArea && o.position == cs[j].centroid
    && IsFirstNearest(pts, o.position, k) && Near(o.position, pts[k].At())
    && o.point == pts[k].index && o.color == color
  }

  /** Every observation comes from a contour of area above 100 of the
      same mask, and names the index of the nearest position, which is
      within 50 pixels. At most one observation per contour. */
  lemma {:induction false} TagSound(pts: seq<PointPosition>, cs: seq<Contour>, color: Color)
    ensures |Tag(pts, cs, color)| <= |cs|
    ensures forall o :: o in Tag(pts, cs, color) ==> exists j, k :: Justified(pts, cs, color, o, j, k)
  {
    if |cs| != 0 {
      var n := |cs| - 1;
      TagSound(pts, cs[..n], color);
      NearestPointCorrect(pts, cs[n].centroid);
      forall o | o in Tag(pts, cs, color) ensures exists j, k :: Justified(pts, cs, color, o, j, k) {
        if o in Tag(pts, cs[..n], color) {
          var j, k :| Justified(pts, cs[..n], color, o, j, k);
          assert Justified(pts, cs, color, o, j, k);
        } else {
          assert o in TagOne(pts, cs[n], color);
          var k :| IsFirstNearest(pts, cs[n].centroid, k) && Near(cs[n].centroid, pts[k].At())
                   && NearestPoint(pts, cs[n].centroid).value == pts[k];
          assert Justified(pts, cs, color, o, n, k);
        }
      }
    }
  }

  /** Every contour of area above 100 whose centroid is within 50 pixels
      of some position yields an observation at its centroid. */
  lemma {:induction false} TagComplete(pts: seq<PointPosition>, cs: seq<Contour>, color: Color, j: int, k: int)
    requires 0 <= j < |cs| && cs[j].area > CheckerMinArea
    requires 0 <= k < |pts| && Near(cs[j].centroid, pts[k].At())
    ensures exists o :: o in Tag(pts, cs, color) && o.position == cs[j].centroid && o.color == color
  {
    var n := |cs| - 1;
    if j < n {
      TagComplete(pts, cs[..n], color, j, k);
      var o :| o in Tag(pts, cs[..n], color) && o.position == cs[..n][j].centroid && o.color == color;
      assert o in Tag(pts, cs, color);
    } else {
      NearestPointCorrect(pts, cs[n].centroid);
      var o := CheckerObservation(NearestPoint(pts, cs[n].centroid).value.index, color, cs[n].centroid);
      assert TagOne(pts, cs[n], color) == [o];
      assert o in Tag(pts, cs, color);
    }
  }
}

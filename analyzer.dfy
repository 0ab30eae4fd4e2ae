/** The board analyzer: its calibration state and the operations that
    calibrate it and analyse frames against it. */
module Analyzer {
  import opened Wrappers
  import opened Geometry
  import opened Calibration
  import opened Checkers
  import opened Dice

  /** What the vision library extracts from one frame for analysis: the
      external contours of the black-checker mask, of the white-checker
      mask and of the brightness-thresholded image. */
  datatype Frame = Frame(blackContours: seq<Contour>, whiteContours: seq<Contour>, brightContours: seq<Contour>)

  /** The result of analysing one frame. */
  datatype FrameSnapshot = FrameSnapshot(checkers: seq<CheckerObservation>, dice: seq<DieObservation>, timestamp: string)

  const NotCalibratedMessage: string := "Board not calibrated"

  class BoardAnalyzer {
    /** The 24 cached point positions of the last successful calibration. */
    var pointPositions: seq<PointPosition>
    var calibrated: bool

    /** Once calibrated, the cache holds a full interleaved layout. */
    ghost predicate Valid()
      reads this
    {
      calibrated ==> IsLayout(pointPositions)
    }

    constructor ()
      ensures Valid()
      ensures pointPositions == [] && !calibrated
    {
      pointPositions := [];
      calibrated := false;
    }

    // -------------------------------------------------------------------
    // Calibration

    /** The scan of calibrateBoard: a running maximum area starting at 0,
        raised only by a strictly larger quadrilateral. */
    method FindBoardContour(contours: seq<Contour>) returns (board: Option<nat>)
      ensures board.None? <==> !HasBoard(contours)
      ensures board.Some? ==> IsBoard(contours, board.value)
    {
      var maxArea := 0.0;
      board := None;
      for i := 0 to |contours|
        invariant board.None? ==> maxArea == 0.0 && forall j :: 0 <= j < i ==> !Candidate(contours[j])
        invariant board.Some? ==> IsBoard(contours[..i], board.value) && maxArea == contours[board.value].area
      {
        var area := contours[i].area;
        if area > maxArea {
          if |contours[i].approx| == 4 {
            maxArea := area;
            board := Some(i);
          }
        }
      }
      assert contours[..|contours|] == contours;
    }

    /** Picks the board outline; on success replaces the cached positions
        and sets `calibrated`, otherwise changes nothing. Returns the
        resulting `calibrated`, so a failed attempt after an earlier
        success returns true. */
    method CalibrateBoard(contours: seq<Contour>) returns (ok: bool)
      requires Valid()
      modifies this
      ensures Valid()
      ensures HasBoard(contours) ==>
        calibrated && exists k :: IsBoard(contours, k) && pointPositions == Layout(contours[k].approx)
      ensures !HasBoard(contours) ==>
        calibrated == old(calibrated) && pointPositions == old(pointPositions)
      ensures ok == calibrated
    {
      var board := FindBoardContour(contours);
      if board.Some? {
        CalculatePointPositions(contours[board.value].approx);
        LayoutCorrect(contours[board.value].approx);
        calibrated := true;
      }
      ok := calibrated;
    }

    /** Rebuilds the cache from the four corners of the board outline. */
    method CalculatePointPositions(corners: seq<Corner>)
      requires |corners| == 4
      modifies this
      ensures pointPositions == Layout(corners)
      ensures calibrated == old(calibrated)
    {
      pointPositions := [];
      var points: seq<Corner> := [];
      for i := 0 to 4
        invariant points == corners[..i]
      {
        points := points + [corners[i]];
      }
      assert points == corners;
      SplitCornersCorrect(corners);
      var byX := SortByKey(points, X);
      SortByKeyCorrect(points, X);
      var left := SortByKey(byX[..2], Y);
      var right := SortByKey(byX[2..], Y);
      assert SplitCorners(corners) == Anchors(left, right);
      ghost var layout := Layout(corners);
      for i := 0 to 12
        invariant pointPositions == layout[..2 * i]
        invariant calibrated == old(calibrated)
      {
        CalculatePointPosition(left[0], right[0], i, 0);
        CalculatePointPosition(left[1], right[1], i, 1);
        LayoutAt(corners, i);
      }
      assert layout[..24] == layout;
    }

    /** Appends the point `index` of `row` between two anchors. */
    method CalculatePointPosition(start: Corner, end: Corner, index: nat, row: nat)
      modifies this
      ensures pointPositions == old(pointPositions) + [Interpolate(start, end, index, row)]
      ensures calibrated == old(calibrated)
    {
      var t := index as real / 11.0;
      var x := start.x as real + (end.x - start.x) as real * t;
      var y := start.y as real + (end.y - start.y) as real * t;
      assert PointPosition(x, y, row, index) == Interpolate(start, end, index, row);
      pointPositions := pointPositions + [PointPosition(x, y, row, index)];
    }

    // -------------------------------------------------------------------
    // Frame analysis

    /** Fails when not calibrated, before any detection; otherwise runs
        checker then dice detection on the frame. */
    method AnalyzeFrame(frame: Frame, timestamp: string) returns (r: Result<FrameSnapshot>)
      requires Valid()
      ensures r.Ok? ==> IsLayout(pointPositions)
      ensures !calibrated ==> r == Err(NotCalibratedMessage)
      ensures calibrated ==> r == Ok(FrameSnapshot(
        FrameCheckers(pointPositions, frame.blackContours, frame.whiteContours),
        DiceOf(DotCentres(frame.brightContours)),
        timestamp))
    {
      if !calibrated {
        return Err(NotCalibratedMessage);
      }
      var checkers := DetectCheckers(frame);
      var dice := DetectDice(frame);
      r := Ok(FrameSnapshot(checkers, dice, timestamp));
    }

    /** The checker loop: for the black mask and then the white one, every
        contour of area above 100 whose centroid has a nearest point yields
        one observation. */
    method DetectCheckers(frame: Frame) returns (checkerPositions: seq<CheckerObservation>)
      ensures checkerPositions == FrameCheckers(pointPositions, frame.blackContours, frame.whiteContours)
    {
      checkerPositions := [];
      for colorIndex := 0 to 2
        invariant colorIndex == 0 ==> checkerPositions == []
        invariant colorIndex == 1 ==> checkerPositions == Tag(pointPositions, frame.blackContours, Black)
        invariant colorIndex == 2 ==> checkerPositions == FrameCheckers(pointPositions, frame.blackContours, frame.whiteContours)
      {
        var contours := if colorIndex == 0 then frame.blackContours else frame.whiteContours;
        var color := if colorIndex == 0 then Black else White;
        var found := DetectColor(contours, color);
        checkerPositions := checkerPositions + found;
      }
    }

    /** The callback the checker loop runs for one mask: the contours of
        area above 100 whose centroid has a nearest point, in order. */
    method DetectColor(contours: seq<Contour>, color: Color) returns (found: seq<CheckerObservation>)
      ensures found == Tag(pointPositions, contours, color)
    {
      found := [];
      for i := 0 to |contours|
        invariant found == Tag(pointPositions, contours[..i], color)
      {
        var contour := contours[i];
        if contour.area > CheckerMinArea {
          var point := FindNearestPoint(contour.centroid);
          if point.Some? {
            found := found + [CheckerObservation(point.value.index, color, contour.centroid)];
          }
        }
        TagSnoc(pointPositions, contours, i, color);
      }
      assert contours[..|contours|] == contours;
    }

    /** The first cached position at minimal distance, if it is closer
        than 50 pixels; none otherwise, in particular when uncalibrated. */
    method FindNearestPoint(position: Point) returns (nearest: Option<PointPosition>)
      ensures nearest == NearestPoint(pointPositions, position)
      ensures nearest.None? <==> forall j :: 0 <= j < |pointPositions| ==> !Near(position, pointPositions[j].At())
      ensures nearest.Some? ==> exists k :: (IsFirstNearest(pointPositions, position, k)
        && Near(position, pointPositions[k].At()) && nearest.value == pointPositions[k])
    {
      var best: Option<PointPosition> := None;
      // minDistance starts at +Infinity, modelled as None.
      var minDistance: Option<real> := None;
      ghost var k := -1;
      for i := 0 to |pointPositions|
        invariant k == BestIndex(pointPositions[..i], position)
        invariant k == -1 ==> best.None? && minDistance.None?
        invariant k >= 0 ==> (best == Some(pointPositions[k])
          && minDistance == Some(Dist2(position, pointPositions[k].At())))
      {
        var point := pointPositions[i];
        var distance := Dist2(position, point.At());
        assert pointPositions[..i + 1][..i] == pointPositions[..i];
        if minDistance.None? || distance < minDistance.value {
          minDistance := Some(distance);
          best := Some(point);
          k := i;
        }
      }
      assert pointPositions[..|pointPositions|] == pointPositions;
      nearest := if minDistance.Some? && minDistance.value < RadiusSquared then best else None;
      NearestPointCorrect(pointPositions, position);
    }

    /** The dice loop: collects the centroids of pip-sized contours, then
        drains the pool one die at a time. */
    method DetectDice(frame: Frame) returns (dice: seq<DieObservation>)
      ensures dice == DiceOf(DotCentres(frame.brightContours))
      ensures forall k :: 0 <= k < |dice| ==> dice[k].value >= 1
      ensures SumValues(dice) == CountDots(frame.brightContours)
    {
      var contours := frame.brightContours;
      var dots: seq<Point> := [];
      for i := 0 to |contours|
        invariant dots == DotCentres(contours[..i])
      {
        var contour := contours[i];
        if IsDot(contour) {
          dots := dots + [contour.centroid];
        }
        assert contours[..i + 1][..i] == contours[..i];
      }
      assert contours[..|contours|] == contours;
      ghost var all := dots;
      dice := [];
      while |dots| > 0
        invariant dice + DiceOf(dots) == DiceOf(all)
        decreases |dots|
      {
        var diceDots;
        diceDots, dots := FindDiceDots(dots);
        if |diceDots| > 0 {
          var center := DiceCenter(diceDots);
          dice := dice + [DieObservation(|diceDots|, center)];
        }
      }
      DiceOfCorrect(all);
      DotCentresCorrect(contours);
    }

    /** Takes the first dot of the pool as seed, removes it, and removes
        and collects, scanning from the back, every other dot within 50
        pixels of it. Returns the collected dots and the new pool. */
    method FindDiceDots(dots: seq<Point>) returns (diceDots: seq<Point>, pool: seq<Point>)
      ensures dots == [] ==> diceDots == [] && pool == []
      ensures dots != [] ==> diceDots == Cluster(dots) && pool == Rest(dots)
      ensures dots != [] ==> |pool| < |dots| && diceDots[0] == dots[0]
    {
      if |dots| == 0 {
        return [], dots;
      }
      diceDots := [dots[0]];
      pool := dots[1..];
      ghost var s := pool;
      // findDiceDots's index runs from |pool| - 1 down to 0; here it is
      // decremented at the top of the body.
      var i := |pool|;
      while i > 0
        invariant 0 <= i <= |s|
        invariant pool == s[..i] + Keep(dots[0], s[i..])
        invariant diceDots == [dots[0]] + Absorbed(dots[0], s[i..])
      {
        i := i - 1;
        PoolStep(dots[0], s, i, pool);
        TakenStep(dots[0], s, i, diceDots);
        if Near(pool[i], diceDots[0]) {
          diceDots := diceDots + [pool[i]];
          pool := pool[..i] + pool[i + 1..];
        }
      }
      assert s[..0] == [] && s[0..] == s;
    }
  }
}

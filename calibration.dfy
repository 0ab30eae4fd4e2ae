/** Board calibration: choosing the board outline among the contours of a
    frame, ordering its four corners and laying out the 24 points. */
module Calibration {
  import opened Geometry

  /** What the contour-extraction library reports about one contour: its
      enclosed area, the vertices of its polygon approximation (2% of the
      perimeter as tolerance) and its centroid from image moments. */
  datatype Contour = Contour(area: real, approx: seq<Corner>, centroid: Point)

  /** One of the 24 points (triangles) of the board. */
  datatype PointPosition = PointPosition(x: real, y: real, row: nat, index: nat)
  {
    function At(): Point { Point(x, y) }
  }

  // ---------------------------------------------------------------------
  // Board selection

  predicate IsQuad(c: Contour)
  {
    |c.approx| == 4
  }

  /** A contour that the scan in calibrateBoard can pick: a quadrilateral
      whose area beats the initial running maximum of 0. */
  predicate Candidate(c: Contour)
  {
    IsQuad(c) && c.area > 0.0
  }

  predicate HasBoard(cs: seq<Contour>)
  {
    exists j :: 0 <= j < |cs| && Candidate(cs[j])
  }

  /** `k` is the board outline: a candidate of largest area, and the
      earliest one among equals, because the scan compares strictly. */
  predicate IsBoard(cs: seq<Contour>, k: int)
  {
    && 0 <= k < |cs|
    && Candidate(cs[k])
    && (forall j :: 0 <= j < k && IsQuad(cs[j]) ==> cs[j].area < cs[k].area)
    && (forall j :: k < j < |cs| && IsQuad(cs[j]) ==> cs[j].area <= cs[k].area)
  }

  /** At most one contour is the board outline. */
  lemma BoardUnique(cs: seq<Contour>, k1: int, k2: int)
    requires IsBoard(cs, k1) && IsBoard(cs, k2)
    ensures k1 == k2
  {
  }

  // ---------------------------------------------------------------------
  // Corner ordering (Array.prototype.sort with a numeric comparator,
  // which is stable)

  predicate SortedByKey(s: seq<Corner>, a: Axis)
  {
    forall i, j :: 0 <= i < j < |s| ==> CornerKey(s[i], a) <= CornerKey(s[j], a)
  }

  /** Puts `c` before the first element whose key is not smaller, so that
      among equal keys `c` stays in front of the elements that followed it. */
  function InsertByKey(c: Corner, s: seq<Corner>, a: Axis): (r: seq<Corner>)
    ensures |r| == |s| + 1
  {
    if |s| == 0 then [c]
    else if CornerKey(c, a) <= CornerKey(s[0], a) then [c] + s
    else [s[0]] + InsertByKey(c, s[1..], a)
  }

  /** Stable insertion sort on one coordinate. */
  function SortByKey(s: seq<Corner>, a: Axis): (r: seq<Corner>)
    ensures |r| == |s|
  {
    if |s| == 0 then [] else InsertByKey(s[0], SortByKey(s[1..], a), a)
  }

  lemma {:induction false} InsertByKeyPermutes(c: Corner, s: seq<Corner>, a: Axis)
    ensures multiset(InsertByKey(c, s, a)) == multiset(s) + multiset{c}
  {
    if |s| != 0 && CornerKey(c, a) > CornerKey(s[0], a) {
      InsertByKeyPermutes(c, s[1..], a);
      assert s == [s[0]] + s[1..];
    }
  }

  /** In a sorted sequence no later element has a smaller key than the head. */
  lemma HeadIsLeast(s: seq<Corner>, a: Axis)
    requires |s| != 0 && SortedByKey(s, a)
    ensures forall x :: x in s[1..] ==> CornerKey(s[0], a) <= CornerKey(x, a)
  {
    forall x | x in s[1..] ensures CornerKey(s[0], a) <= CornerKey(x, a) {
      var j :| 0 <= j < |s[1..]| && s[1..][j] == x;
      assert s[1 + j] == x;
    }
  }

  /** A lower bound on the keys of `u` and of `c` bounds every element of
      a rearrangement of `u` plus `c`. */
  lemma BoundKept(b: int, c: Corner, u: seq<Corner>, t: seq<Corner>, a: Axis)
    requires multiset(t) == multiset(u) + multiset{c}
    requires b <= CornerKey(c, a)
    requires forall x :: x in u ==> b <= CornerKey(x, a)
    ensures forall i :: 0 <= i < |t| ==> b <= CornerKey(t[i], a)
  {
    forall i | 0 <= i < |t| ensures b <= CornerKey(t[i], a) {
      assert t[i] in multiset(t);
      if t[i] != c {
        assert t[i] in multiset(u);
      }
    }
  }

  lemma {:induction false} InsertByKeyCorrect(c: Corner, s: seq<Corner>, a: Axis)
    requires SortedByKey(s, a)
    ensures SortedByKey(InsertByKey(c, s, a), a)
    ensures multiset(InsertByKey(c, s, a)) == multiset(s) + multiset{c}
  {
    InsertByKeyPermutes(c, s, a);
    if |s| != 0 && CornerKey(c, a) > CornerKey(s[0], a) {
      InsertByKeyCorrect(c, s[1..], a);
      var t := InsertByKey(c, s[1..], a);
      HeadIsLeast(s, a);
      BoundKept(CornerKey(s[0], a), c, s[1..], t, a);
      assert InsertByKey(c, s, a) == [s[0]] + t;
    }
  }

  /** The sort orders by the key and permutes its input. */
  lemma {:induction false} SortByKeyCorrect(s: seq<Corner>, a: Axis)
    ensures SortedByKey(SortByKey(s, a), a)
    ensures multiset(SortByKey(s, a)) == multiset(s)
  {
    if |s| != 0 {
      SortByKeyCorrect(s[1..], a);
      InsertByKeyCorrect(s[0], SortByKey(s[1..], a), a);
      assert s == [s[0]] + s[1..];
    }
  }

  /** The two left corners and the two right corners of the board, each
      pair ordered top to bottom. */
  datatype Anchors = Anchors(left: seq<Corner>, right: seq<Corner>)

  function SplitCorners(corners: seq<Corner>): (r: Anchors)
    requires |corners| == 4
    ensures |r.left| == 2 && |r.right| == 2
  {
    var byX := SortByKey(corners, X);
    Anchors(SortByKey(byX[..2], Y), SortByKey(byX[2..], Y))
  }

  /** `left` holds the two corners of smallest x and `right` the other two,
      each pair ordered by ascending y. */
  lemma SplitCornersCorrect(corners: seq<Corner>)
    requires |corners| == 4
    ensures |SplitCorners(corners).left| == 2 && |SplitCorners(corners).right| == 2
    ensures multiset(SplitCorners(corners).left) + multiset(SplitCorners(corners).right) == multiset(corners)
    ensures forall l, r :: l in SplitCorners(corners).left && r in SplitCorners(corners).right ==> l.x <= r.x
    ensures SplitCorners(corners).left[0].y <= SplitCorners(corners).left[1].y
    ensures SplitCorners(corners).right[0].y <= SplitCorners(corners).right[1].y
  {
    var byX := SortByKey(corners, X);
    SortByKeyCorrect(corners, X);
    HalvesCorrect(byX);
  }

  /** Sorting each half of an x-sorted quadruple by y keeps the halves
      apart and their union equal to the quadruple. */
  lemma HalvesCorrect(byX: seq<Corner>)
    requires |byX| == 4 && SortedByKey(byX, X)
    ensures multiset(SortByKey(byX[..2], Y)) + multiset(SortByKey(byX[2..], Y)) == multiset(byX)
    ensures forall l, r :: l in SortByKey(byX[..2], Y) && r in SortByKey(byX[2..], Y) ==> l.x <= r.x
    ensures SortByKey(byX[..2], Y)[0].y <= SortByKey(byX[..2], Y)[1].y
    ensures SortByKey(byX[2..], Y)[0].y <= SortByKey(byX[2..], Y)[1].y
  {
    var lo, hi := byX[..2], byX[2..];
    SortedHalves(byX);
    SortByKeyCorrect(lo, Y);
    SortByKeyCorrect(hi, Y);
    assert byX == lo + hi;
    ApartPreserved(lo, hi, SortByKey(lo, Y), SortByKey(hi, Y));
  }

  /** Rearranging two groups of corners keeps every corner of the first
      left of every corner of the second. */
  lemma ApartPreserved(lo: seq<Corner>, hi: seq<Corner>, lo': seq<Corner>, hi': seq<Corner>)
    requires multiset(lo') == multiset(lo) && multiset(hi') == multiset(hi)
    requires forall l, r :: l in lo && r in hi ==> l.x <= r.x
    ensures forall l, r :: l in lo' && r in hi' ==> l.x <= r.x
  {
    forall l, r | l in lo' && r in hi' ensures l.x <= r.x {
      assert l in multiset(lo') && r in multiset(hi');
    }
  }

  /** In four corners sorted by x, each of the first two lies left of
      each of the last two. */
  lemma SortedHalves(byX: seq<Corner>)
    requires |byX| == 4 && SortedByKey(byX, X)
    ensures forall l, r :: l in byX[..2] && r in byX[2..] ==> l.x <= r.x
  {
    assert CornerKey(byX[0], X) <= CornerKey(byX[2], X) && CornerKey(byX[0], X) <= CornerKey(byX[3], X);
    assert CornerKey(byX[1], X) <= CornerKey(byX[2], X) && CornerKey(byX[1], X) <= CornerKey(byX[3], X);
    assert byX[..2] == [byX[0], byX[1]] && byX[2..] == [byX[2], byX[3]];
  }

  // ---------------------------------------------------------------------
  // The 24 point positions

  /** The point `index` steps of eleven along the segment from `start` to `end`. */
  function Interpolate(start: Corner, end: Corner, index: nat, row: nat): (p: PointPosition)
    ensures p.row == row && p.index == index
    ensures index == 0 ==> p.At() == ToPoint(start)
    ensures index == 11 ==> p.At() == ToPoint(end)
  {
    var t := index as real / 11.0;
    PointPosition(start.x as real + (end.x - start.x) as real * t,
                  start.y as real + (end.y - start.y) as real * t,
                  row, index)
  }

  /** Neighbouring points of a row are one eleventh of the row apart. */
  lemma InterpolateEvenlySpaced(start: Corner, end: Corner, index: nat, row: nat)
    requires index < 11
    ensures Interpolate(start, end, index + 1, row).x - Interpolate(start, end, index, row).x
            == (end.x - start.x) as real / 11.0
    ensures Interpolate(start, end, index + 1, row).y - Interpolate(start, end, index, row).y
            == (end.y - start.y) as real / 11.0
  {
  }

  /** The layout that calibration caches: entries 2i and 2i+1 are point i
      of the top row (left[0] to right[0]) and of the bottom row
      (left[1] to right[1]). */
  function Layout(corners: seq<Corner>): seq<PointPosition>
    requires |corners| == 4
  {
    SplitCornersCorrect(corners);
    var sp := SplitCorners(corners);
    seq(24, k requires 0 <= k < 24 =>
      if k % 2 == 0 then Interpolate(sp.left[0], sp.right[0], k / 2, 0)
      else Interpolate(sp.left[1], sp.right[1], k / 2, 1))
  }

  lemma LayoutAt(corners: seq<Corner>, i: nat)
    requires |corners| == 4 && i < 12
    ensures Layout(corners)[..2 * (i + 1)] == Layout(corners)[..2 * i] + [
      Interpolate(SplitCorners(corners).left[0], SplitCorners(corners).right[0], i, 0),
      Interpolate(SplitCorners(corners).left[1], SplitCorners(corners).right[1], i, 1)]
  {
    var l := Layout(corners);
    assert (2 * i) % 2 == 0 && (2 * i) / 2 == i;
    assert (2 * i + 1) % 2 == 1 && (2 * i + 1) / 2 == i;
    assert l[..2 * (i + 1)] == l[..2 * i] + [l[2 * i], l[2 * i + 1]];
  }

  /** 24 entries, interleaved rows, indices 0..11 in each row. */
  predicate IsLayout(ps: seq<PointPosition>)
  {
    |ps| == 24 && forall k :: 0 <= k < 24 ==> ps[k].row == k % 2 && ps[k].index == k / 2
  }

  /** The layout has the interleaved shape, and the ends of each row are
      its anchors exactly. */
  lemma LayoutCorrect(corners: seq<Corner>)
    requires |corners| == 4
    ensures IsLayout(Layout(corners))
    ensures Layout(corners)[0].At() == ToPoint(SplitCorners(corners).left[0])
    ensures Layout(corners)[22].At() == ToPoint(SplitCorners(corners).right[0])
    ensures Layout(corners)[1].At() == ToPoint(SplitCorners(corners).left[1])
    ensures Layout(corners)[23].At() == ToPoint(SplitCorners(corners).right[1])
  {
    SplitCornersCorrect(corners);
  }

  /** The square (0,0)-(100,0)-(100,100)-(0,100): row 0 runs along the top
      edge, from the top-left corner at index 0 to the top-right corner at
      index 11. */
  lemma SquareBoardExample()
    ensures Layout([Corner(0, 0), Corner(100, 0), Corner(100, 100), Corner(0, 100)])[0].At() == Point(0.0, 0.0)
    ensures Layout([Corner(0, 0), Corner(100, 0), Corner(100, 100), Corner(0, 100)])[22].At() == Point(100.0, 0.0)
  {
    var corners := [Corner(0, 0), Corner(100, 0), Corner(100, 100), Corner(0, 100)];
    var byX := [Corner(0, 0), Corner(0, 100), Corner(100, 0), Corner(100, 100)];
    assert corners[3..][1..] == [] && corners[2..][1..] == corners[3..] && corners[1..][1..] == corners[2..];
    assert SortByKey(corners[3..], X) == [Corner(0, 100)];
    assert InsertByKey(Corner(100, 100), [], X) == [Corner(100, 100)];
    assert InsertByKey(Corner(100, 100), [Corner(0, 100)], X) == [Corner(0, 100), Corner(100, 100)];
    assert SortByKey(corners[2..], X) == [Corner(0, 100), Corner(100, 100)];
    assert [Corner(0, 100), Corner(100, 100)][1..] == [Corner(100, 100)];
    assert InsertByKey(Corner(100, 0), [Corner(100, 100)], X) == [Corner(100, 0), Corner(100, 100)];
    assert InsertByKey(Corner(100, 0), [Corner(0, 100), Corner(100, 100)], X)
        == [Corner(0, 100), Corner(100, 0), Corner(100, 100)];
    assert SortByKey(corners[1..], X) == [Corner(0, 100), Corner(100, 0), Corner(100, 100)];
    assert InsertByKey(Corner(0, 0), [Corner(0, 100), Corner(100, 0), Corner(100, 100)], X) == byX;
    assert SortByKey(corners, X) == byX;
    assert byX[..2][1..] == [Corner(0, 100)] && byX[2..][1..] == [Corner(100, 100)];
    assert SortByKey([Corner(0, 100)], Y) == [Corner(0, 100)];
    assert SortByKey(byX[..2], Y) == [Corner(0, 0), Corner(0, 100)];
    assert SortByKey([Corner(100, 100)], Y) == [Corner(100, 100)];
    assert SortByKey(byX[2..], Y) == [Corner(100, 0), Corner(100, 100)];
    LayoutCorrect(corners);
  }
}

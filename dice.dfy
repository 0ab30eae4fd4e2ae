/** Dice detection: filtering pip blobs, clustering the pips around a seed
    within 50 pixels, and reading each cluster as one die. */
module Dice {
  import opened Geometry
  import opened Calibration

  /** One detected die: its value is the number of pips in its cluster. */
  datatype DieObservation = DieObservation(value: nat, position: Point)

  // ---------------------------------------------------------------------
  // Pip filtering

  predicate IsDot(c: Contour)
  {
    DotMinArea < c.area < DotMaxArea
  }

  /** The centroids of the contours of pip size, in contour order. */
  function DotCentres(cs: seq<Contour>): (r: seq<Point>)
    ensures |r| <= |cs|
  {
    if |cs| == 0 then []
    else DotCentres(cs[..|cs| - 1]) + (if IsDot(cs[|cs| - 1]) then [cs[|cs| - 1].centroid] else [])
  }

  /** Number of contours of pip size. */
  function CountDots(cs: seq<Contour>): nat
  {
    if |cs| == 0 then 0 else (if IsDot(cs[0]) then 1 else 0) + CountDots(cs[1..])
  }

  /** One centroid per contour of pip size, and the centroid of each. */
  lemma {:induction false} DotCentresCorrect(cs: seq<Contour>)
    ensures |DotCentres(cs)| == CountDots(cs)
    ensures forall p :: p in DotCentres(cs) ==> exists j :: 0 <= j < |cs| && IsDot(cs[j]) && cs[j].centroid == p
  {
    if |cs| != 0 {
      var n := |cs| - 1;
      DotCentresCorrect(cs[..n]);
      CountDotsSnoc(cs[..n], cs[n]);
      assert cs[..n] + [cs[n]] == cs;
      forall p | p in DotCentres(cs)
        ensures exists j :: 0 <= j < |cs| && IsDot(cs[j]) && cs[j].centroid == p
      {
        if p in DotCentres(cs[..n]) {
          var j :| 0 <= j < n && IsDot(cs[..n][j]) && cs[..n][j].centroid == p;
          assert cs[j] == cs[..n][j];
        }
      }
    }
  }

  lemma {:induction false} CountDotsSnoc(cs: seq<Contour>, c: Contour)
    ensures CountDots(cs + [c]) == CountDots(cs) + (if IsDot(c) then 1 else 0)
  {
    if |cs| != 0 {
      CountDotsSnoc(cs[1..], c);
      assert (cs + [c])[1..] == cs[1..] + [c];
    }
  }

  // ---------------------------------------------------------------------
  // Seed-and-absorb clustering

  /** The dots that the seed does not absorb, in their original order. */
  function Keep(seed: Point, s: seq<Point>): (r: seq<Point>)
    ensures |r| <= |s|
  {
    if |s| == 0 then []
    else (if Near(s[0], seed) then [] else [s[0]]) + Keep(seed, s[1..])
  }

  /** The dots that the seed absorbs, in the order the backward scan
      pushes them: last dot first. */
  function Absorbed(seed: Point, s: seq<Point>): seq<Point>
  {
    if |s| == 0 then []
    else Absorbed(seed, s[1..]) + (if Near(s[0], seed) then [s[0]] else [])
  }

  /** Every dot is either kept or absorbed, exactly once: absorbed dots are
      the ones within 50 pixels of the seed. */
  lemma {:induction false} KeepAbsorbedPartition(seed: Point, s: seq<Point>)
    ensures multiset(Keep(seed, s)) + multiset(Absorbed(seed, s)) == multiset(s)
    ensures |Keep(seed, s)| + |Absorbed(seed, s)| == |s|
    ensures forall p :: p in Absorbed(seed, s) ==> Near(p, seed)
    ensures forall p :: p in Keep(seed, s) ==> !Near(p, seed)
  {
    KeepAbsorbedCount(seed, s);
    assert |multiset(Keep(seed, s)) + multiset(Absorbed(seed, s))| == |multiset(s)|;
    KeepAbsorbedNear(seed, s);
  }

  lemma {:induction false} KeepAbsorbedCount(seed: Point, s: seq<Point>)
    ensures multiset(Keep(seed, s)) + multiset(Absorbed(seed, s)) == multiset(s)
  {
    if |s| != 0 {
      var t := s[1..];
      KeepAbsorbedCount(seed, t);
      assert s == [s[0]] + t;
      if Near(s[0], seed) {
        assert Keep(seed, s) == Keep(seed, t);
        assert Absorbed(seed, s) == Absorbed(seed, t) + [s[0]];
      } else {
        assert Keep(seed, s) == [s[0]] + Keep(seed, t);
        assert Absorbed(seed, s) == Absorbed(seed, t);
      }
    }
  }

  lemma {:induction false} KeepAbsorbedNear(seed: Point, s: seq<Point>)
    ensures forall p :: p in Absorbed(seed, s) ==> Near(p, seed)
    ensures forall p :: p in Keep(seed, s) ==> !Near(p, seed)
  {
    if |s| != 0 {
      KeepAbsorbedNear(seed, s[1..]);
    }
  }

  /** One step of the backward scan, on the pool: before and after looking
      at dot `i` of the scanned suffix `s`. */
  lemma PoolStep(seed: Point, s: seq<Point>, i: int, pool: seq<Point>)
    requires 0 <= i < |s|
    requires pool == s[..i + 1] + Keep(seed, s[i + 1..])
    ensures pool[i] == s[i]
    ensures Near(s[i], seed) ==> pool[..i] + pool[i + 1..] == s[..i] + Keep(seed, s[i..])
    ensures !Near(s[i], seed) ==> pool == s[..i] + Keep(seed, s[i..])
  {
    assert s[i..][1..] == s[i + 1..];
    assert s[..i + 1] == s[..i] + [s[i]];
    assert Keep(seed, s[i..]) == (if Near(s[i], seed) then [] else [s[i]]) + Keep(seed, s[i + 1..]);
  }

  /** The same step, on the collected dots. */
  lemma TakenStep(seed: Point, s: seq<Point>, i: int, taken: seq<Point>)
    requires 0 <= i < |s|
    requires taken == [seed] + Absorbed(seed, s[i + 1..])
    ensures Near(s[i], seed) ==> taken + [s[i]] == [seed] + Absorbed(seed, s[i..])
    ensures !Near(s[i], seed) ==> taken == [seed] + Absorbed(seed, s[i..])
  {
    assert s[i..][1..] == s[i + 1..];
  }

  /** The die seeded by the first dot of a non-empty pool. */
  function Cluster(d: seq<Point>): (c: seq<Point>)
    requires |d| > 0
  {
    [d[0]] + Absorbed(d[0], d[1..])
  }

  /** The pool once that die's dots are removed. */
  function Rest(d: seq<Point>): (r: seq<Point>)
    requires |d| > 0
    ensures |r| < |d|
  {
    Keep(d[0], d[1..])
  }

  /** A cluster starts with its seed, every other member is within 50
      pixels of the seed, and the cluster and the new pool together hold
      exactly the old pool. */
  lemma ClusterCorrect(d: seq<Point>)
    requires |d| > 0
    ensures Cluster(d)[0] == d[0]
    ensures forall i :: 0 < i < |Cluster(d)| ==> Near(Cluster(d)[i], Cluster(d)[0])
    ensures multiset(Cluster(d)) + multiset(Rest(d)) == multiset(d)
  {
    var c := Cluster(d);
    KeepAbsorbedPartition(d[0], d[1..]);
    assert d == [d[0]] + d[1..];
    forall i | 0 < i < |c| ensures Near(c[i], c[0]) {
      assert c[i] in Absorbed(d[0], d[1..]);
    }
  }

  /** The clusters the grouping loop forms, in order. */
  function Clustering(d: seq<Point>): seq<seq<Point>>
    decreases |d|
  {
    if |d| == 0 then [] else [Cluster(d)] + Clustering(Rest(d))
  }

  function Flatten(cl: seq<seq<Point>>): seq<Point>
  {
    if |cl| == 0 then [] else cl[0] + Flatten(cl[1..])
  }

  /** Clustering partitions the dots: every dot lands in exactly one cluster. */
  lemma {:induction false} ClusteringPartition(d: seq<Point>)
    ensures multiset(Flatten(Clustering(d))) == multiset(d)
    ensures |Flatten(Clustering(d))| == |d|
    decreases |d|
  {
    if |d| != 0 {
      KeepAbsorbedPartition(d[0], d[1..]);
      ClusteringPartition(Rest(d));
      var cl := Clustering(d);
      assert cl[0] == Cluster(d) && cl[1..] == Clustering(Rest(d));
      assert Flatten(cl) == Cluster(d) + Flatten(Clustering(Rest(d)));
      assert d == [d[0]] + d[1..];
    }
  }

  /** Every cluster is non-empty, and every dot after its seed is within
      50 pixels of the seed. */
  lemma {:induction false} ClusteringNear(d: seq<Point>)
    ensures forall c :: c in Clustering(d) ==> |c| > 0 && forall i :: 0 < i < |c| ==> Near(c[i], c[0])
    decreases |d|
  {
    if |d| != 0 {
      var c := Cluster(d);
      KeepAbsorbedPartition(d[0], d[1..]);
      ClusteringNear(Rest(d));
      assert Clustering(d) == [c] + Clustering(Rest(d));
      forall i | 0 < i < |c| ensures Near(c[i], c[0]) {
        assert c[i] in Absorbed(d[0], d[1..]);
      }
    }
  }

  // ---------------------------------------------------------------------
  // Die centre (calculateDiceCenter)

  /** The left-to-right sum of one coordinate, as `reduce` computes it. */
  function Sum(d: seq<Point>, a: Axis): real
  {
    if |d| == 0 then 0.0 else Sum(d[..|d| - 1], a) + Coord(d[|d| - 1], a)
  }

  /** The coordinate-wise mean of the dots of a die. */
  function DiceCenter(d: seq<Point>): Point
    requires |d| > 0
  {
    Point(Sum(d, X) / |d| as real, Sum(d, Y) / |d| as real)
  }

  /** `n` copies of `v` added up. */
  function Repeat(v: real, n: nat): real
  {
    if n == 0 then 0.0 else Repeat(v, n - 1) + v
  }

  lemma {:induction false} RepeatIsProduct(v: real, n: nat)
    ensures Repeat(v, n) == n as real * v
  {
    if n > 0 {
      RepeatIsProduct(v, n - 1);
      assert n as real * v == (n - 1) as real * v + v;
    }
  }

  lemma {:induction false} SumBounds(d: seq<Point>, a: Axis, lo: real, hi: real)
    requires forall i :: 0 <= i < |d| ==> lo <= Coord(d[i], a) <= hi
    ensures Repeat(lo, |d|) <= Sum(d, a) <= Repeat(hi, |d|)
  {
    if |d| != 0 {
      var n := |d| - 1;
      var prefix := d[..n];
      assert forall i :: 0 <= i < n ==> prefix[i] == d[i];
      SumBounds(prefix, a, lo, hi);
    }
  }

  /** The centre lies within the bounding box of the dots. */
  lemma DiceCenterWithin(d: seq<Point>, a: Axis, lo: real, hi: real)
    requires |d| > 0
    requires forall i :: 0 <= i < |d| ==> lo <= Coord(d[i], a) <= hi
    ensures lo <= Coord(DiceCenter(d), a) <= hi
  {
    SumBounds(d, a, lo, hi);
    RepeatIsProduct(lo, |d|);
    RepeatIsProduct(hi, |d|);
    var n := |d| as real;
    assert Coord(DiceCenter(d), a) == Sum(d, a) / n;
    DivideBounds(Sum(d, a), n, lo, hi);
  }

  lemma DivideBounds(x: real, n: real, lo: real, hi: real)
    requires n > 0.0 && n * lo <= x <= n * hi
    ensures lo <= x / n <= hi
  {
    var m := x / n;
    assert m * n == x;
    if m < lo { ProductPositive(lo - m, n); }
    if m > hi { ProductPositive(m - hi, n); }
  }

  lemma ProductPositive(u: real, v: real)
    requires u > 0.0 && v > 0.0
    ensures u * v > 0.0
  {
  }

  /** A single-pip die sits on its pip. */
  lemma DiceCenterSingle(p: Point)
    ensures DiceCenter([p]) == p
  {
    assert [p][..0] == [];
    assert Sum([p], X) == p.x;
    assert Sum([p], Y) == p.y;
  }

  // ---------------------------------------------------------------------
  // Dice of a pool

  function DieFrom(c: seq<Point>): DieObservation
    requires |c| > 0
  {
    DieObservation(|c|, DiceCenter(c))
  }

  /** The dice the grouping loop pushes when started on the pool `d`. */
  function DiceOf(d: seq<Point>): seq<DieObservation>
    decreases |d|
  {
    if |d| == 0 then [] else [DieFrom(Cluster(d))] + DiceOf(Rest(d))
  }

  function SumValues(ds: seq<DieObservation>): nat
  {
    if |ds| == 0 then 0 else ds[0].value + SumValues(ds[1..])
  }

  /** Die k is read from cluster k: its value is the cluster's size and
      its position the cluster's mean; the values are at least 1 and add
      up to the number of dots. */
  lemma {:induction false} DiceOfCorrect(d: seq<Point>)
    ensures |DiceOf(d)| == |Clustering(d)|
    ensures forall k :: 0 <= k < |DiceOf(d)| ==>
      |Clustering(d)[k]| > 0 && DiceOf(d)[k] == DieFrom(Clustering(d)[k])
    ensures forall k :: 0 <= k < |DiceOf(d)| ==> DiceOf(d)[k].value >= 1
    ensures SumValues(DiceOf(d)) == |d|
    decreases |d|
  {
    if |d| != 0 {
      KeepAbsorbedPartition(d[0], d[1..]);
      DiceOfCorrect(Rest(d));
      assert DiceOf(d)[1..] == DiceOf(Rest(d));
      assert Clustering(d)[1..] == Clustering(Rest(d));
    }
  }

  /** Pips all within 50 pixels of the first one make exactly one die,
      whose value is their number. */
  lemma OneDie(d: seq<Point>)
    requires |d| > 0
    requires forall i :: 0 < i < |d| ==> Near(d[i], d[0])
    ensures DiceOf(d) == [DieObservation(|d|, DiceCenter(Cluster(d)))]
  {
    var tail := d[1..];
    assert forall i :: 0 <= i < |tail| ==> tail[i] == d[i + 1];
    KeepNone(d[0], tail);
    KeepAbsorbedPartition(d[0], tail);
    var c := Cluster(d);
    assert |c| == |d|;
    assert DiceOf(d) == [DieFrom(c)] + DiceOf([]);
  }

  /** The seed absorbs a pool of dots all near it entirely. */
  lemma {:induction false} KeepNone(seed: Point, s: seq<Point>)
    requires forall i :: 0 <= i < |s| ==> Near(s[i], seed)
    ensures Keep(seed, s) == []
  {
    if |s| != 0 {
      assert forall i :: 0 <= i < |s| - 1 ==> s[1..][i] == s[i + 1];
      KeepNone(seed, s[1..]);
    }
  }

  /** Two dice, whatever the order of the pips: when the pips the first
      seed leaves behind all lie within 50 pixels of the first of them,
      the pool makes two dice, the first with the seed and every pip it
      absorbs, the second with the pips left behind. */
  lemma TwoDice(d: seq<Point>)
    requires |d| > 0 && |Keep(d[0], d[1..])| > 0
    requires forall i :: 0 < i < |Keep(d[0], d[1..])| ==> Near(Keep(d[0], d[1..])[i], Keep(d[0], d[1..])[0])
    ensures |DiceOf(d)| == 2
    ensures DiceOf(d)[0].value == |d| - |Keep(d[0], d[1..])|
    ensures DiceOf(d)[1].value == |Keep(d[0], d[1..])|
  {
    var far := Keep(d[0], d[1..]);
    KeepAbsorbedPartition(d[0], d[1..]);
    OneDie(far);
    assert DiceOf(d) == [DieFrom(Cluster(d))] + DiceOf(far);
  }

  /** Two groups placed one after the other, each within 50 pixels of
      its own first pip, with the second group farther than 50 pixels
      from the first pip of the first group, make two dice with the
      groups' sizes. */
  lemma TwoGroups(g1: seq<Point>, g2: seq<Point>)
    requires |g1| > 0 && |g2| > 0
    requires forall i :: 0 < i < |g1| ==> Near(g1[i], g1[0])
    requires forall i :: 0 < i < |g2| ==> Near(g2[i], g2[0])
    requires forall i :: 0 <= i < |g2| ==> !Near(g2[i], g1[0])
    ensures |DiceOf(g1 + g2)| == 2
    ensures DiceOf(g1 + g2)[0].value == |g1| && DiceOf(g1 + g2)[1].value == |g2|
  {
    var d := g1 + g2;
    assert d[0] == g1[0];
    assert d[1..] == g1[1..] + g2;
    KeepAll(g1[0], g1[1..], g2);
    TwoDice(d);
  }

  /** Keeping from near dots followed by far dots gives the far dots. */
  lemma KeepAll(seed: Point, near: seq<Point>, far: seq<Point>)
    requires forall i :: 0 <= i < |near| ==> Near(near[i], seed)
    requires forall i :: 0 <= i < |far| ==> !Near(far[i], seed)
    ensures Keep(seed, near + far) == far
  {
    KeepAppend(seed, near, far);
    KeepNone(seed, near);
    KeepFar(seed, far);
  }

  /** Keeping distributes over concatenation. */
  lemma {:induction false} KeepAppend(seed: Point, a: seq<Point>, b: seq<Point>)
    ensures Keep(seed, a + b) == Keep(seed, a) + Keep(seed, b)
  {
    if |a| != 0 {
      assert (a + b)[1..] == a[1..] + b;
      KeepAppend(seed, a[1..], b);
    } else {
      assert a + b == b;
    }
  }

  /** The seed keeps a pool of dots all far from it entirely. */
  lemma {:induction false} KeepFar(seed: Point, s: seq<Point>)
    requires forall i :: 0 <= i < |s| ==> !Near(s[i], seed)
    ensures Keep(seed, s) == s
  {
    if |s| != 0 {
      assert forall i :: 0 <= i < |s| - 1 ==> s[1..][i] == s[i + 1];
      KeepFar(seed, s[1..]);
      assert s == [s[0]] + s[1..];
    }
  }
}

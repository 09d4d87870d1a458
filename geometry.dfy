/**
 * The expression-only geometry of the planner: vectors of reals, the
 * Euclidean distance, steering along a ray, the discretisation of a
 * segment into check points, clamping into the search box, and closed
 * axis-aligned boxes.
 *
 * numpy's square root is not computable over mathematical reals, so every
 * operation that needs it takes an oracle `sqrt` restricted by `IsSqrt`.
 */
module Geometry {

  /** A configuration: one real coordinate per dimension. */
  type Point = seq<real>

  /** The `(start, end)` pair of one dimension of the search space. */
  datatype Interval = Interval(lo: real, hi: real)

  /** A closed axis-aligned box, as the rtree stores it (min corner, max corner). */
  datatype Box = Box(lo: Point, hi: Point)

  // ---------------------------------------------------------------------
  // Vector arithmetic

  function Sub(a: Point, b: Point): (r: Point)
    requires |a| == |b|
  {
    seq(|a|, i requires 0 <= i < |a| => a[i] - b[i])
  }

  function Scale(c: real, v: Point): (r: Point)
  {
    seq(|v|, i requires 0 <= i < |v| => c * v[i])
  }

  /**
   * The square of a real. It is written with the identity `Id` on one side
   * so that the solver treats it as a product of two terms; its facts are the
   * lemmas below.
   */
  function Sq(x: real): real
  {
    x * Id(x)
  }

  function Id(x: real): real { x }

  lemma SqPositive(x: real)
    requires x != 0.0
    ensures Sq(x) > 0.0
  {
    if x > 0.0 {
      assert x * Id(x) > 0.0;
    } else {
      assert (-x) * (-Id(x)) > 0.0;
    }
  }

  lemma SqZero(x: real)
    ensures Sq(x) >= 0.0
    ensures Sq(x) == 0.0 <==> x == 0.0
  {
    if x != 0.0 {
      SqPositive(x);
    }
  }

  lemma PositiveProduct(x: real, y: real)
    requires x > 0.0 && y > 0.0
    ensures x * y > 0.0
  {
  }

  lemma SqMonotone(a: real, b: real)
    requires 0.0 <= a < b
    ensures Sq(a) < Sq(b)
  {
    PositiveProduct(b - a, b + a);
    assert (b - a) * (b + a) == Sq(b) - Sq(a);
  }

  lemma QuotientSquare(d: real, n: real)
    requires n != 0.0
    ensures Sq(d / n) * Sq(n) == Sq(d)
  {
    var c := d / n;
    assert c * n == d;
  }

  /** The sum of squares of the coordinates (`np.sum(diff ** 2)`). */
  function SumSq(v: Point): real
  {
    if v == [] then 0.0 else Sq(v[0]) + SumSq(v[1..])
  }

  /** Squared Euclidean distance; it orders points as the distance does. */
  function SqDist(a: Point, b: Point): real
    requires |a| == |b|
  {
    SumSq(Sub(a, b))
  }

  lemma {:induction false} SumSqNonneg(v: Point)
    ensures SumSq(v) >= 0.0
  {
    if v != [] {
      SumSqNonneg(v[1..]);
      SqZero(v[0]);
    }
  }

  lemma {:induction false} SumSqZero(v: Point)
    ensures SumSq(v) == 0.0 <==> forall i :: 0 <= i < |v| ==> v[i] == 0.0
  {
    if v != [] {
      SumSqZero(v[1..]);
      SumSqNonneg(v[1..]);
      SqZero(v[0]);
      assert forall i :: 1 <= i < |v| ==> v[i] == v[1..][i - 1];
    }
  }

  lemma SqProduct(a: real, b: real)
    ensures Sq(a * b) == Sq(a) * Sq(b)
  {
  }

  lemma {:induction false} SumSqScale(c: real, v: Point)
    ensures SumSq(Scale(c, v)) == Sq(c) * SumSq(v)
  {
    if v != [] {
      assert forall i :: 0 <= i < |v| - 1 ==> Scale(c, v)[1..][i] == Scale(c, v[1..])[i];
      assert Scale(c, v)[1..] == Scale(c, v[1..]);
      SumSqScale(c, v[1..]);
      assert Scale(c, v)[0] == c * v[0];
      SqProduct(c, v[0]);
    }
  }

  /** The distance from `a` to `b` is the distance from `b` to `a`. */
  lemma SqDistSymmetric(a: Point, b: Point)
    requires |a| == |b|
    ensures SqDist(a, b) == SqDist(b, a)
  {
    assert Sub(b, a) == Scale(-1.0, Sub(a, b));
    SumSqScale(-1.0, Sub(a, b));
  }

  /** Two points are at squared distance zero exactly when they are equal. */
  lemma SqDistZero(a: Point, b: Point)
    requires |a| == |b|
    ensures SqDist(a, b) == 0.0 <==> a == b
  {
    SumSqZero(Sub(a, b));
    if SqDist(a, b) == 0.0 {
      assert forall i :: 0 <= i < |a| ==> a[i] == b[i] by {
        forall i | 0 <= i < |a| ensures a[i] == b[i] {
          assert Sub(a, b)[i] == 0.0;
        }
      }
    }
  }

  // ---------------------------------------------------------------------
  // Square root oracle and the Euclidean distance

  /** `sqrt` returns the non-negative square root of every non-negative real. */
  ghost predicate IsSqrt(sqrt: real -> real)
  {
    forall x :: 0.0 <= x ==> 0.0 <= sqrt(x) && Sq(sqrt(x)) == x
  }

  /** `euclidean_distance(a, b)`: `np.linalg.norm(a - b)`. */
  function EuclideanDistance(a: Point, b: Point, sqrt: real -> real): (r: real)
    requires |a| == |b|
    requires IsSqrt(sqrt)
    ensures 0.0 <= r && Sq(r) == SqDist(a, b)
    ensures r == 0.0 <==> a == b
  {
    SumSqNonneg(Sub(a, b));
    SqDistZero(a, b);
    SqZero(sqrt(SumSq(Sub(a, b))));
    sqrt(SumSq(Sub(a, b)))
  }

  /** The distance does not depend on the order of the two points. */
  lemma DistanceSymmetric(a: Point, b: Point, sqrt: real -> real)
    requires |a| == |b|
    requires IsSqrt(sqrt)
    ensures EuclideanDistance(a, b, sqrt) == EuclideanDistance(b, a, sqrt)
  {
    SqDistSymmetric(a, b);
  }

  /**
   * Squared distance orders points as Euclidean distance does: `b` is no
   * farther from `a` than `c` exactly when its squared distance is no larger.
   */
  lemma DistanceOrderBySquares(a: Point, b: Point, c: Point, sqrt: real -> real)
    requires |a| == |b| == |c|
    requires IsSqrt(sqrt)
    ensures SqDist(a, b) <= SqDist(a, c) <==> EuclideanDistance(a, b, sqrt) <= EuclideanDistance(a, c, sqrt)
  {
    var db := EuclideanDistance(a, b, sqrt);
    var dc := EuclideanDistance(a, c, sqrt);
    if db < dc {
      SqMonotone(db, dc);
    } else if dc < db {
      SqMonotone(dc, db);
    }
  }

  // ---------------------------------------------------------------------
  // Steering

  /**
   * `steer(start, end, dist)`: the point `start + (end - start) / |end - start| * dist`.
   * Coincident endpoints divide zero by zero in the source (a NaN point), so
   * they are excluded here.
   */
  function Steer(start: Point, end: Point, d: real, sqrt: real -> real): (r: Point)
    requires |start| == |end|
    requires start != end
    requires IsSqrt(sqrt)
    ensures |r| == |start|
    ensures d == 0.0 ==> r == start
  {
    var n := EuclideanDistance(end, start, sqrt);
    seq(|start|, i requires 0 <= i < |start| => start[i] + (end[i] - start[i]) / n * d)
  }

  /**
   * The steered point lies on the ray from `start` through `end`, at exactly
   * distance `d` from `start`: its offset from `start` is `d / |end - start|`
   * times `end - start`.
   */
  lemma SteerOnRay(start: Point, end: Point, d: real, sqrt: real -> real)
    requires |start| == |end|
    requires start != end
    requires IsSqrt(sqrt)
    ensures var n := EuclideanDistance(end, start, sqrt);
      n > 0.0
      && Sub(Steer(start, end, d, sqrt), start) == Scale(d / n, Sub(end, start))
      && SqDist(Steer(start, end, d, sqrt), start) == Sq(d)
  {
    var n := EuclideanDistance(end, start, sqrt);
    var r := Steer(start, end, d, sqrt);
    var diff := Sub(end, start);
    forall i | 0 <= i < |start| ensures Sub(r, start)[i] == Scale(d / n, diff)[i] {
      RayCoordinate(start[i], end[i], n, d);
    }
    assert Sub(r, start) == Scale(d / n, diff);
    SumSqScale(d / n, diff);
    SqDistSymmetric(end, start);
    QuotientSquare(d, n);
  }

  lemma RayCoordinate(s: real, e: real, n: real, d: real)
    requires n != 0.0
    ensures (s + (e - s) / n * d) - s == d / n * (e - s)
    ensures (s + (e - s) / n * d) - e == (d / n - 1.0) * (e - s)
  {
    assert (e - s) / n * d == (e - s) * d / n;
    assert d / n * (e - s) == (e - s) * d / n;
  }

  /** Steering by the full distance lands exactly on `end`; by zero, on `start`. */
  lemma SteerEndpoints(start: Point, end: Point, sqrt: real -> real)
    requires |start| == |end|
    requires start != end
    requires IsSqrt(sqrt)
    ensures Steer(start, end, EuclideanDistance(end, start, sqrt), sqrt) == end
    ensures Steer(start, end, 0.0, sqrt) == start
  {
  }

  /** A non-negative step lands at Euclidean distance exactly `d` from `start`. */
  lemma SteerDistance(start: Point, end: Point, d: real, sqrt: real -> real)
    requires |start| == |end|
    requires start != end
    requires IsSqrt(sqrt)
    requires d >= 0.0
    ensures EuclideanDistance(Steer(start, end, d, sqrt), start, sqrt) == d
  {
    SteerOnRay(start, end, d, sqrt);
    var e := EuclideanDistance(Steer(start, end, d, sqrt), start, sqrt);
    if e < d {
      SqMonotone(e, d);
    } else if d < e {
      SqMonotone(d, e);
    }
  }

  /**
   * No clamping at `end`: a step longer than `|end - start|` overshoots, so
   * the result lies beyond `end` on the same ray and farther from `start`.
   */
  lemma SteerOvershoots(start: Point, end: Point, d: real, sqrt: real -> real)
    requires |start| == |end|
    requires start != end
    requires IsSqrt(sqrt)
    requires d > EuclideanDistance(end, start, sqrt)
    ensures var n := EuclideanDistance(end, start, sqrt);
      d / n - 1.0 > 0.0
      && Sub(Steer(start, end, d, sqrt), end) == Scale(d / n - 1.0, Sub(end, start))
      && SqDist(Steer(start, end, d, sqrt), start) > SqDist(end, start)
  {
    var n := EuclideanDistance(end, start, sqrt);
    var r := Steer(start, end, d, sqrt);
    SteerOnRay(start, end, d, sqrt);
    assert d / n > 1.0 by {
      assert d / n * n == d;
    }
    forall i | 0 <= i < |start| ensures Sub(r, end)[i] == Scale(d / n - 1.0, Sub(end, start))[i] {
      RayCoordinate(start[i], end[i], n, d);
    }
    assert Sub(r, end) == Scale(d / n - 1.0, Sub(end, start));
    SqMonotone(n, d);
  }

  // ---------------------------------------------------------------------
  // Discretising a segment

  /** `int(np.ceil(x))`: the least integer not below `x`. */
  function Ceil(x: real): (r: int)
    ensures (r - 1) as real < x <= r as real
  {
    if x.Floor as real == x then x.Floor else x.Floor + 1
  }

  /** `no_points` of `get_points`: `ceil(dist / resolution)`. */
  function PointCount(start: Point, end: Point, res: real, sqrt: real -> real): int
    requires |start| == |end|
    requires res > 0.0
    requires IsSqrt(sqrt)
  {
    Ceil(EuclideanDistance(start, end, sqrt) / res)
  }

  /** More than one check point means the endpoints are at positive distance. */
  lemma CountAboveOneApart(start: Point, end: Point, res: real, sqrt: real -> real)
    requires |start| == |end|
    requires res > 0.0
    requires IsSqrt(sqrt)
    requires PointCount(start, end, res, sqrt) > 1
    ensures start != end
  {
    var dist := EuclideanDistance(start, end, sqrt);
    assert dist / res > 0.0;
    assert dist == dist / res * res;
  }

  /** The distance `i * step` of the i-th check point from the segment's start. */
  function Offset(i: int, step: real): real
  {
    i as real * step
  }

  /** `step` of `get_points`: the distance divided into `no_points - 1` equal parts. */
  function PointStep(start: Point, end: Point, res: real, sqrt: real -> real): real
    requires |start| == |end|
    requires res > 0.0
    requires IsSqrt(sqrt)
    requires PointCount(start, end, res, sqrt) > 1
  {
    EuclideanDistance(start, end, sqrt) / (PointCount(start, end, res, sqrt) - 1) as real
  }

  /**
   * The values `get_points(start, end, resolution)` yields, in order: nothing
   * when there is at most one point, otherwise `no_points` points steered at
   * multiples of `dist / (no_points - 1)`.
   */
  function Points(start: Point, end: Point, res: real, sqrt: real -> real): (ps: seq<Point>)
    requires |start| == |end|
    requires res > 0.0
    requires IsSqrt(sqrt)
    ensures |ps| == if PointCount(start, end, res, sqrt) > 1 then PointCount(start, end, res, sqrt) else 0
    ensures forall k :: 0 <= k < |ps| ==> |ps[k]| == |start|
  {
    var n := PointCount(start, end, res, sqrt);
    if n > 1 then
      CountAboveOneApart(start, end, res, sqrt);
      var step := PointStep(start, end, res, sqrt);
      seq(n, i requires 0 <= i < n => Steer(start, end, Offset(i, step), sqrt))
    else
      []
  }

  /** A segment no longer than one resolution unit yields no check point at all. */
  lemma PointsShortSegment(start: Point, end: Point, res: real, sqrt: real -> real)
    requires |start| == |end|
    requires res > 0.0
    requires IsSqrt(sqrt)
    requires EuclideanDistance(start, end, sqrt) <= res
    ensures Points(start, end, res, sqrt) == []
  {
    var dist := EuclideanDistance(start, end, sqrt);
    assert dist / res * res == dist;
    assert dist / res <= 1.0;
  }

  /**
   * With more than one point, exactly `no_points` are produced, evenly spaced
   * along the segment: the i-th is at distance `i * step` from `start`, the
   * first is `start` and the last is `end`.
   */
  lemma PointsShape(start: Point, end: Point, res: real, sqrt: real -> real)
    requires |start| == |end|
    requires res > 0.0
    requires IsSqrt(sqrt)
    requires PointCount(start, end, res, sqrt) > 1
    ensures var ps := Points(start, end, res, sqrt);
      var n := PointCount(start, end, res, sqrt);
      && |ps| == n
      && ps[0] == start
      && ps[n - 1] == end
      && forall i :: 0 <= i < n ==>
           |ps[i]| == |start| && SqDist(ps[i], start) == Sq(Offset(i, PointStep(start, end, res, sqrt)))
  {
    PointsEndpoints(start, end, res, sqrt);
    forall i | 0 <= i < PointCount(start, end, res, sqrt)
      ensures |Points(start, end, res, sqrt)[i]| == |start|
      ensures SqDist(Points(start, end, res, sqrt)[i], start) == Sq(Offset(i, PointStep(start, end, res, sqrt)))
    {
      PointSpacing(start, end, res, sqrt, i);
    }
  }

  lemma PointSpacing(start: Point, end: Point, res: real, sqrt: real -> real, i: int)
    requires |start| == |end|
    requires res > 0.0
    requires IsSqrt(sqrt)
    requires 1 < PointCount(start, end, res, sqrt)
    requires 0 <= i < PointCount(start, end, res, sqrt)
    ensures |Points(start, end, res, sqrt)| == PointCount(start, end, res, sqrt)
    ensures |Points(start, end, res, sqrt)[i]| == |start|
    ensures SqDist(Points(start, end, res, sqrt)[i], start) == Sq(Offset(i, PointStep(start, end, res, sqrt)))
  {
    PointsElement(start, end, res, sqrt, i);
    SteerOnRay(start, end, Offset(i, PointStep(start, end, res, sqrt)), sqrt);
  }

  lemma PointsEndpoints(start: Point, end: Point, res: real, sqrt: real -> real)
    requires |start| == |end|
    requires res > 0.0
    requires IsSqrt(sqrt)
    requires PointCount(start, end, res, sqrt) > 1
    ensures var n := PointCount(start, end, res, sqrt);
      |Points(start, end, res, sqrt)| == n
      && Points(start, end, res, sqrt)[0] == start
      && Points(start, end, res, sqrt)[n - 1] == end
  {
    var n := PointCount(start, end, res, sqrt);
    var dist := EuclideanDistance(start, end, sqrt);
    var step := PointStep(start, end, res, sqrt);
    PointsElement(start, end, res, sqrt, 0);
    PointsElement(start, end, res, sqrt, n - 1);
    assert Offset(n - 1, step) == dist;
    assert Offset(0, step) == 0.0;
    DistanceSymmetric(start, end, sqrt);
    SteerEndpoints(start, end, sqrt);
  }

  lemma PointsElement(start: Point, end: Point, res: real, sqrt: real -> real, i: int)
    requires |start| == |end|
    requires res > 0.0
    requires IsSqrt(sqrt)
    requires 1 < PointCount(start, end, res, sqrt)
    requires 0 <= i < PointCount(start, end, res, sqrt)
    ensures start != end
    ensures |Points(start, end, res, sqrt)| == PointCount(start, end, res, sqrt)
    ensures Points(start, end, res, sqrt)[i] == Steer(start, end, Offset(i, PointStep(start, end, res, sqrt)), sqrt)
  {
    CountAboveOneApart(start, end, res, sqrt);
  }

  /** The generator loop of `get_points`, building the list it yields. */
  method GetPoints(start: Point, end: Point, res: real, sqrt: real -> real) returns (ps: seq<Point>)
    requires |start| == |end|
    requires res > 0.0
    requires IsSqrt(sqrt)
    ensures ps == Points(start, end, res, sqrt)
  {
    ps := [];
    var dist := EuclideanDistance(start, end, sqrt);
    var n := Ceil(dist / res);
    if n > 1 {
      CountAboveOneApart(start, end, res, sqrt);
      var step := dist / (n - 1) as real;
      assert step == PointStep(start, end, res, sqrt);
      var i := 0;
      while i < n
        invariant 0 <= i <= n
        invariant ps == seq(i, k requires 0 <= k < i => Steer(start, end, Offset(k, step), sqrt))
      {
        ghost var next := seq(i + 1, k requires 0 <= k < i + 1 => Steer(start, end, Offset(k, step), sqrt));
        assert forall k :: 0 <= k < i ==> (ps + [Steer(start, end, Offset(i, step), sqrt)])[k] == next[k];
        assert (ps + [Steer(start, end, Offset(i, step), sqrt)])[i] == next[i];
        assert ps + [Steer(start, end, Offset(i, step), sqrt)] == next;
        ps := ps + [Steer(start, end, Offset(i, step), sqrt)];
        i := i + 1;
      }
    }
  }

  // ---------------------------------------------------------------------
  // Uniform draws

  /** A product kept as one term, so that bounds on it stay linear facts. */
  function Mul(x: real, y: real): real { x * y }

  /** A unit fraction of a positive width stays below the width. */
  lemma UnitScale(w: real, u: real)
    requires w > 0.0
    requires 0.0 <= u < 1.0
    ensures 0.0 <= Mul(w, u) < w
  {
    var p := w * u;
    assert w * (1.0 - u) == w - p;
    PositiveProduct(w, 1.0 - u);
    if u > 0.0 {
      PositiveProduct(w, u);
    }
  }

  /**
   * `random.uniform(a, b)` and `np.random.uniform(a, b)`: `a + (b - a) * u`
   * for a unit draw `u` in `[0, 1)` supplied by the caller. With `a < b` the
   * draw lies in `[a, b)`; with the bounds given high first it lies in `(b, a]`.
   */
  function Uniform(a: real, b: real, u: real): (r: real)
    requires 0.0 <= u < 1.0
    ensures a < b ==> a <= r < b
    ensures b < a ==> b < r <= a
    ensures a == b ==> r == a
  {
    if a < b then
      UnitScale(b - a, u);
      a + Mul(b - a, u)
    else if b < a then
      UnitScale(a - b, u);
      a - Mul(a - b, u)
    else
      a
  }

  // ---------------------------------------------------------------------
  // The search box and clamping

  /** Every interval is non-empty, as the search space's constructor demands. */
  predicate WellFormedBounds(bounds: seq<Interval>)
  {
    forall i :: 0 <= i < |bounds| ==> bounds[i].lo < bounds[i].hi
  }

  predicate InBounds(p: Point, bounds: seq<Interval>)
  {
    |p| == |bounds| && forall i :: 0 <= i < |p| ==> bounds[i].lo <= p[i] <= bounds[i].hi
  }

  function Abs(x: real): real { if x < 0.0 then -x else x }

  function Max(a: real, b: real): real { if a >= b then a else b }

  function Min(a: real, b: real): real { if a <= b then a else b }

  /** `bounded`: `np.minimum(np.maximum(p, lo), hi)`, coordinate by coordinate. */
  function Clamp(p: Point, bounds: seq<Interval>): (r: Point)
    requires |p| == |bounds|
    ensures |r| == |p|
    ensures forall i :: 0 <= i < |p| ==> r[i] == p[i] || r[i] == bounds[i].lo || r[i] == bounds[i].hi
    ensures forall i :: 0 <= i < |p| && p[i] < bounds[i].lo <= bounds[i].hi ==> r[i] == bounds[i].lo
    ensures forall i :: 0 <= i < |p| && bounds[i].lo <= bounds[i].hi < p[i] ==> r[i] == bounds[i].hi
  {
    seq(|p|, i requires 0 <= i < |p| => Min(Max(p[i], bounds[i].lo), bounds[i].hi))
  }

  /** The clamped point always lies in the box. */
  lemma ClampInBounds(p: Point, bounds: seq<Interval>)
    requires |p| == |bounds|
    requires WellFormedBounds(bounds)
    ensures InBounds(Clamp(p, bounds), bounds)
  {
  }

  /** A point already in the box is left unchanged. */
  lemma ClampKeepsInside(p: Point, bounds: seq<Interval>)
    requires |p| == |bounds|
    ensures InBounds(p, bounds) ==> Clamp(p, bounds) == p
  {
  }

  /** Clamping twice is clamping once. */
  lemma ClampIdempotent(p: Point, bounds: seq<Interval>)
    requires |p| == |bounds|
    ensures Clamp(Clamp(p, bounds), bounds) == Clamp(p, bounds)
  {
  }

  // ---------------------------------------------------------------------
  // Boxes

  /** A box of dimension `d` whose min corner is below its max corner on every axis. */
  predicate WellFormedBox(b: Box, d: nat)
  {
    |b.lo| == d && |b.hi| == d && forall i :: 0 <= i < d ==> b.lo[i] < b.hi[i]
  }

  /** The closed containment an rtree point query uses: `lo[i] <= x[i] <= hi[i]`. */
  predicate InBox(x: Point, b: Box)
  {
    |x| == |b.lo| == |b.hi| && forall i :: 0 <= i < |x| ==> b.lo[i] <= x[i] <= b.hi[i]
  }

  /** Closed box overlap, as an rtree intersection query reports it. */
  predicate BoxesIntersect(a: Box, b: Box)
  {
    && |a.lo| == |a.hi| == |b.lo| == |b.hi|
    && forall i :: 0 <= i < |a.lo| ==> a.lo[i] <= b.hi[i] && b.lo[i] <= a.hi[i]
  }

  /** The interleaved rtree vector of a box: min corner followed by max corner. */
  function Flat(b: Box): seq<real>
  {
    b.lo + b.hi
  }
}

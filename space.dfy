/**
 * The configuration space (`Search_Space`): the bounding box of the search,
 * the obstacle index, and the point, sampling and segment queries.
 *
 * The rtree obstacle index is a sequence of closed boxes; a point query
 * counts the boxes that contain the point.
 */
module Space {
  import opened Wrappers
  import opened Geometry
  import opened ObstacleStream

  /** The four exceptions the constructor raises, in the order it checks for them. */
  datatype SpaceError =
    | TooFewDimensions           // fewer than two dimensions
    | MalformedDimension         // an entry without exactly two values, or with start >= end
    | ObstacleDimensionMismatch  // an obstacle whose length halved is not the dimension count
    | ObstacleInverted           // an obstacle with min >= max on some axis

  /** One dimension entry is a `(start, end)` pair with `start < end`. */
  predicate BoundPairOk(b: seq<real>)
  {
    |b| == 2 && b[0] < b[1]
  }

  /** A flat obstacle vector of dimension `d` has its min below its max on every axis. */
  predicate ObstacleOrdered(o: seq<real>, d: nat)
    requires |o| == 2 * d
  {
    forall i :: 0 <= i < d ==> o[i] < o[i + d]
  }

  /** Everything the constructor checks before it builds the index. */
  ghost predicate ValidSpaceInput(dims: seq<seq<real>>, obstacles: seq<seq<real>>)
  {
    && |dims| >= 2
    && (forall k :: 0 <= k < |dims| ==> BoundPairOk(dims[k]))
    && (forall k :: 0 <= k < |obstacles| ==> |obstacles[k]| == 2 * |dims|)
    && (forall k :: 0 <= k < |obstacles| ==> ObstacleOrdered(obstacles[k], |dims|))
  }

  /** The exception the constructor raises for these arguments, if any. */
  ghost function SpaceErrorOf(dims: seq<seq<real>>, obstacles: seq<seq<real>>): (e: Option<SpaceError>)
    ensures e.None? <==> ValidSpaceInput(dims, obstacles)
  {
    if |dims| < 2 then Some(TooFewDimensions)
    else if exists k :: 0 <= k < |dims| && !BoundPairOk(dims[k]) then Some(MalformedDimension)
    else if exists k :: 0 <= k < |obstacles| && |obstacles[k]| != 2 * |dims| then Some(ObstacleDimensionMismatch)
    else if exists k :: 0 <= k < |obstacles| && !ObstacleOrdered(obstacles[k], |dims|) then Some(ObstacleInverted)
    else None
  }

  /**
   * The constructor's checks, in the source's order: the dimension count,
   * then every entry's length, then every entry's order, then every
   * obstacle's length, then every obstacle's axes.
   */
  method ValidateSpace(dims: seq<seq<real>>, obstacles: seq<seq<real>>) returns (err: Option<SpaceError>)
    ensures err == SpaceErrorOf(dims, obstacles)
  {
    if |dims| < 2 {
      return Some(TooFewDimensions);
    }
    var k := 0;
    while k < |dims|
      invariant 0 <= k <= |dims|
      invariant forall j :: 0 <= j < k ==> |dims[j]| == 2
    {
      if |dims[k]| != 2 {
        return Some(MalformedDimension);
      }
      k := k + 1;
    }
    k := 0;
    while k < |dims|
      invariant 0 <= k <= |dims|
      invariant forall j :: 0 <= j < k ==> BoundPairOk(dims[j])
    {
      if dims[k][0] >= dims[k][1] {
        return Some(MalformedDimension);
      }
      k := k + 1;
    }
    var d := |dims|;
    k := 0;
    while k < |obstacles|
      invariant 0 <= k <= |obstacles|
      invariant forall j :: 0 <= j < k ==> |obstacles[j]| == 2 * d
    {
      if |obstacles[k]| != 2 * d {
        return Some(ObstacleDimensionMismatch);
      }
      k := k + 1;
    }
    k := 0;
    while k < |obstacles|
      invariant 0 <= k <= |obstacles|
      invariant forall j :: 0 <= j < k ==> ObstacleOrdered(obstacles[j], d)
    {
      var o := obstacles[k];
      var i := 0;
      while i < d
        invariant 0 <= i <= d
        invariant forall m :: 0 <= m < i ==> o[m] < o[m + d]
      {
        if o[i] >= o[i + d] {
          return Some(ObstacleInverted);
        }
        i := i + 1;
      }
      k := k + 1;
    }
    return None;
  }

  /** A validated dimension entry as an interval. */
  function IntervalOf(b: seq<real>): (iv: Interval)
    requires BoundPairOk(b)
    ensures iv.lo == b[0] && iv.hi == b[1] && iv.lo < iv.hi
  {
    Interval(b[0], b[1])
  }

  /** The validated dimension entries as intervals. */
  function BoundsOf(dims: seq<seq<real>>): (bounds: seq<Interval>)
    requires forall k :: 0 <= k < |dims| ==> BoundPairOk(dims[k])
    ensures |bounds| == |dims| && WellFormedBounds(bounds)
    ensures forall k :: 0 <= k < |dims| ==> bounds[k] == IntervalOf(dims[k])
  {
    seq(|dims|, k requires 0 <= k < |dims| => IntervalOf(dims[k]))
  }

  /** An interleaved obstacle vector as a box: min corner first, max corner second. */
  function ToBox(v: seq<real>, d: nat): Box
    requires |v| == 2 * d
  {
    Box(v[..d], v[d..])
  }

  /** The boxes of validated obstacle vectors, in order. */
  function BoxesOf(obstacles: seq<seq<real>>, d: nat): (boxes: seq<Box>)
    requires forall k :: 0 <= k < |obstacles| ==> |obstacles[k]| == 2 * d
    requires forall k :: 0 <= k < |obstacles| ==> ObstacleOrdered(obstacles[k], d)
    ensures |boxes| == |obstacles|
    ensures forall k :: 0 <= k < |boxes| ==> WellFormedBox(boxes[k], d) && Flat(boxes[k]) == obstacles[k]
  {
    var boxes := seq(|obstacles|, k requires 0 <= k < |obstacles| => ToBox(obstacles[k], d));
    forall k | 0 <= k < |boxes|
      ensures WellFormedBox(boxes[k], d) && Flat(boxes[k]) == obstacles[k]
    {
      var o := obstacles[k];
      assert boxes[k] == ToBox(o, d);
      assert ObstacleOrdered(o, d);
      forall i | 0 <= i < d
        ensures boxes[k].lo[i] < boxes[k].hi[i]
      {
        assert boxes[k].lo[i] == o[i] && boxes[k].hi[i] == o[i + d];
      }
      assert o[..d] + o[d..] == o;
    }
    boxes
  }

  /** The number of boxes containing `x`: the rtree `count(x)` of a point query. */
  function CountContaining(obs: seq<Box>, x: Point): (c: nat)
    ensures c <= |obs|
  {
    if obs == [] then 0
    else (if InBox(x, obs[0]) then 1 else 0) + CountContaining(obs[1..], x)
  }

  lemma {:induction false} CountZeroIffNoneContains(obs: seq<Box>, x: Point)
    ensures CountContaining(obs, x) == 0 <==> forall k :: 0 <= k < |obs| ==> !InBox(x, obs[k])
  {
    if obs != [] {
      CountZeroIffNoneContains(obs[1..], x);
      assert forall k :: 1 <= k < |obs| ==> obs[k] == obs[1..][k - 1];
    }
  }

  /** The number of boxes overlapping `b`: the rtree `intersection(b)` query, counted. */
  function CountIntersecting(obs: seq<Box>, b: Box): (c: nat)
    ensures c <= |obs|
  {
    if obs == [] then 0
    else (if BoxesIntersect(obs[0], b) then 1 else 0) + CountIntersecting(obs[1..], b)
  }

  /** No box of `obs` overlaps `b`. */
  predicate NoneIntersect(obs: seq<Box>, b: Box)
  {
    forall k :: 0 <= k < |obs| ==> !BoxesIntersect(obs[k], b)
  }

  lemma {:induction false} CountIntersectingZero(obs: seq<Box>, b: Box)
    ensures CountIntersecting(obs, b) == 0 <==> NoneIntersect(obs, b)
  {
    if obs != [] {
      CountIntersectingZero(obs[1..], b);
      assert forall k :: 1 <= k < |obs| ==> obs[k] == obs[1..][k - 1];
    }
  }

  class SearchSpace {
    /** `dimension_lengths`: one interval per dimension, fixed at construction. */
    const bounds: seq<Interval>
    /** `obs`: the obstacle index; the obstacle generator adds to it in place. */
    var obs: seq<Box>

    ghost predicate Valid()
      reads this
    {
      && |bounds| >= 2
      && WellFormedBounds(bounds)
      && forall k :: 0 <= k < |obs| ==> WellFormedBox(obs[k], |bounds|)
    }

    constructor (bounds: seq<Interval>, obs: seq<Box>)
      requires |bounds| >= 2 && WellFormedBounds(bounds)
      requires forall k :: 0 <= k < |obs| ==> WellFormedBox(obs[k], |bounds|)
      ensures this.bounds == bounds && this.obs == obs
      ensures Valid()
    {
      this.bounds := bounds;
      this.obs := obs;
    }

    /** The index's `add`: one more box. */
    method Insert(b: Box)
      requires Valid()
      requires WellFormedBox(b, |bounds|)
      modifies this
      ensures Valid()
      ensures obs == old(obs) + [b]
    {
      obs := obs + [b];
    }

    /** `obstacle_free(x)`: the index reports no box containing `x`. */
    function ObstacleFree(x: Point): (free: bool)
      reads this
      ensures free <==> forall k :: 0 <= k < |obs| ==> !InBox(x, obs[k])
      ensures obs == [] ==> free
    {
      CountZeroIffNoneContains(obs, x);
      CountContaining(obs, x) == 0
    }

    /** `sample()`: one uniform draw per dimension, from unit draws `u`. */
    function Sample(u: seq<real>): (x: Point)
      requires WellFormedBounds(bounds)
      requires |u| == |bounds|
      requires forall i :: 0 <= i < |u| ==> 0.0 <= u[i] < 1.0
      ensures |x| == |bounds|
      ensures forall i :: 0 <= i < |x| ==> bounds[i].lo <= x[i] < bounds[i].hi
    {
      seq(|u|, i requires 0 <= i < |u| => Uniform(bounds[i].lo, bounds[i].hi, u[i]))
    }

    /**
     * `sample_free()`: draws until a sample is obstacle-free. The unbounded
     * retry loop is bounded here by the finite list of draws it is given;
     * when every draw is blocked the result is `None`.
     */
    method SampleFree(draws: seq<seq<real>>) returns (x: Option<Point>)
      requires WellFormedBounds(bounds)
      requires forall k :: 0 <= k < |draws| ==> |draws[k]| == |bounds|
      requires forall k, i :: 0 <= k < |draws| && 0 <= i < |draws[k]| ==> 0.0 <= draws[k][i] < 1.0
      ensures x.Some? ==> ObstacleFree(x.value) && InBounds(x.value, bounds)
      ensures x.Some? ==>
        exists k :: 0 <= k < |draws| && x.value == Sample(draws[k])
          && forall j :: 0 <= j < k ==> !ObstacleFree(Sample(draws[j]))
      ensures x.None? ==> forall k :: 0 <= k < |draws| ==> !ObstacleFree(Sample(draws[k]))
    {
      var k := 0;
      while k < |draws|
        invariant 0 <= k <= |draws|
        invariant forall j :: 0 <= j < k ==> !ObstacleFree(Sample(draws[j]))
      {
        var sample := Sample(draws[k]);
        if ObstacleFree(sample) {
          return Some(sample);
        }
        k := k + 1;
      }
      return None;
    }

    /**
     * `collision_free(start, end, r)`: every check point of the segment is
     * obstacle-free. It holds outright when the segment yields at most one
     * point.
     */
    function CollisionFree(start: Point, end: Point, r: real, sqrt: real -> real): (free: bool)
      reads this
      requires |start| == |end|
      requires r > 0.0
      requires IsSqrt(sqrt)
      ensures PointCount(start, end, r, sqrt) <= 1 ==> free
    {
      var pts := Points(start, end, r, sqrt);
      forall i :: 0 <= i < |pts| ==> ObstacleFree(pts[i])
    }
  }

  /**
   * The check points are exactly the steered points: with more than one of
   * them, the segment is collision-free iff each `steer(start, end, i * step)`
   * is obstacle-free.
   */
  lemma CollisionFreeSteered(s: SearchSpace, start: Point, end: Point, r: real, sqrt: real -> real)
    requires |start| == |end|
    requires r > 0.0
    requires IsSqrt(sqrt)
    requires PointCount(start, end, r, sqrt) > 1
    ensures start != end
    ensures var n := PointCount(start, end, r, sqrt);
      var step := PointStep(start, end, r, sqrt);
      s.CollisionFree(start, end, r, sqrt) <==>
        forall i :: 0 <= i < n ==> s.ObstacleFree(Steer(start, end, Offset(i, step), sqrt))
  {
    var n := PointCount(start, end, r, sqrt);
    var step := PointStep(start, end, r, sqrt);
    CountAboveOneApart(start, end, r, sqrt);
    forall i | 0 <= i < n
      ensures Points(start, end, r, sqrt)[i] == Steer(start, end, Offset(i, step), sqrt)
    {
      PointsElement(start, end, r, sqrt, i);
    }
  }

  /** A collision-free segment with more than one check point has both endpoints free. */
  lemma CollisionFreeEndpoints(s: SearchSpace, start: Point, end: Point, r: real, sqrt: real -> real)
    requires |start| == |end|
    requires r > 0.0
    requires IsSqrt(sqrt)
    requires PointCount(start, end, r, sqrt) > 1
    requires s.CollisionFree(start, end, r, sqrt)
    ensures s.ObstacleFree(start) && s.ObstacleFree(end)
  {
    PointsEndpoints(start, end, r, sqrt);
  }

  /** Construction: validate the arguments, then bulk-load the obstacle index. */
  method NewSearchSpace(dims: seq<seq<real>>, obstacles: seq<seq<real>>, ids: seq<Uuid>)
    returns (r: Result<SearchSpace, SpaceError>)
    requires |ids| == |obstacles|
    ensures r.Failure? <==> !ValidSpaceInput(dims, obstacles)
    ensures r.Failure? ==> SpaceErrorOf(dims, obstacles) == Some(r.error)
    ensures r.Success? ==>
      && fresh(r.value) && r.value.Valid()
      && r.value.bounds == BoundsOf(dims)
      && r.value.obs == BoxesOf(obstacles, |dims|)
  {
    var err := ValidateSpace(dims, obstacles);
    if err.Some? {
      return Failure(err.value);
    }
    var d := |dims|;
    var entries := ObstacleGenerator(obstacles, ids);
    var boxes := seq(|entries|, k requires 0 <= k < |entries| => ToBox(entries[k].box, d));
    assert boxes == BoxesOf(obstacles, d);
    var s := new SearchSpace(BoundsOf(dims), boxes);
    return Success(s);
  }
}

/**
 * Random obstacle generation (`generate_random_obstacles`): each round draws
 * an edge half-length and a centre per axis, builds the box around the
 * centre, and keeps it only when it overlaps no box already in the index and
 * covers neither the start nor the goal. Kept boxes are added to the index
 * in place and returned as flat `min + max` vectors.
 *
 * The random draws are inputs: one unit fraction in `[0, 1)` per call of
 * `random.uniform`, two per axis per round.
 */
module ObsGenerator {
  import opened Geometry
  import opened Space

  /** The unit draws of one round: one for the edge and one for the centre, per axis. */
  datatype ObstacleDraw = ObstacleDraw(edgeU: seq<real>, centerU: seq<real>)

  predicate DrawOk(draw: ObstacleDraw, d: nat)
  {
    && |draw.edgeU| == d && |draw.centerU| == d
    && (forall j :: 0 <= j < d ==> 0.0 <= draw.edgeU[j] < 1.0)
    && (forall j :: 0 <= j < d ==> 0.0 <= draw.centerU[j] < 1.0)
  }

  /**
   * `random.uniform(diff / 10, diff / 100)`: the bounds are given high first,
   * so the half-length lies in `(diff / 100, diff / 10]` and is positive.
   */
  function EdgeLength(iv: Interval, u: real): (e: real)
    requires iv.lo < iv.hi
    requires 0.0 <= u < 1.0
    ensures (iv.hi - iv.lo) / 100.0 < e <= (iv.hi - iv.lo) / 10.0
    ensures 0.0 < e
  {
    Uniform((iv.hi - iv.lo) / 10.0, (iv.hi - iv.lo) / 100.0, u)
  }

  /** `random.uniform(lo + e, hi + e)`: the centre is shifted up by the half-length. */
  function Center(iv: Interval, e: real, u: real): (c: real)
    requires iv.lo < iv.hi
    requires 0.0 <= u < 1.0
    ensures iv.lo + e <= c < iv.hi + e
  {
    Uniform(iv.lo + e, iv.hi + e, u)
  }

  /** The centre and half-lengths of one round's candidate. */
  datatype Candidate = Candidate(center: seq<real>, edges: seq<real>)

  function MakeCandidate(bounds: seq<Interval>, draw: ObstacleDraw): (c: Candidate)
    requires WellFormedBounds(bounds)
    requires DrawOk(draw, |bounds|)
    ensures |c.center| == |bounds| && |c.edges| == |bounds|
    ensures forall j :: 0 <= j < |bounds| ==>
      && 0.0 < c.edges[j]
      && bounds[j].lo + c.edges[j] <= c.center[j] < bounds[j].hi + c.edges[j]
  {
    var edges := seq(|bounds|, j requires 0 <= j < |bounds| => EdgeLength(bounds[j], draw.edgeU[j]));
    var center := seq(|bounds|, j requires 0 <= j < |bounds| => Center(bounds[j], edges[j], draw.centerU[j]));
    Candidate(center, edges)
  }

  /** The candidate box: `center - edge` to `center + edge` on every axis. */
  function CandidateBox(c: Candidate): (b: Box)
    requires |c.center| == |c.edges|
    requires forall j :: 0 <= j < |c.edges| ==> 0.0 < c.edges[j]
    ensures WellFormedBox(b, |c.center|)
  {
    Box(seq(|c.center|, j requires 0 <= j < |c.center| => c.center[j] - c.edges[j]),
        seq(|c.center|, j requires 0 <= j < |c.center| => c.center[j] + c.edges[j]))
  }

  /**
   * The final value of `s_collision` (or `f_collision`) for point `x`: no
   * axis has `x` farther than the half-length from the centre.
   */
  predicate Covers(c: Candidate, x: Point)
    requires |x| == |c.center| == |c.edges|
  {
    forall j :: 0 <= j < |x| ==> Abs(x[j] - c.center[j]) <= c.edges[j]
  }

  /** The collision flag is exactly containment in the candidate's closed box. */
  lemma CoversIffInBox(c: Candidate, x: Point)
    requires |x| == |c.center| == |c.edges|
    requires forall j :: 0 <= j < |c.edges| ==> 0.0 < c.edges[j]
    ensures Covers(c, x) <==> InBox(x, CandidateBox(c))
  {
  }

  /** The round's candidate box, rejected or not. */
  function RoundBox(bounds: seq<Interval>, draw: ObstacleDraw): (b: Box)
    requires WellFormedBounds(bounds)
    requires DrawOk(draw, |bounds|)
    ensures WellFormedBox(b, |bounds|)
  {
    CandidateBox(MakeCandidate(bounds, draw))
  }

  /** Whether a round keeps its candidate, given the boxes already in the index. */
  predicate Keeps(existing: seq<Box>, bounds: seq<Interval>, start: Point, end: Point, draw: ObstacleDraw)
    requires WellFormedBounds(bounds)
    requires DrawOk(draw, |bounds|)
    requires |start| == |bounds| && |end| == |bounds|
  {
    var c := MakeCandidate(bounds, draw);
    !(CountIntersecting(existing, CandidateBox(c)) > 0 || Covers(c, start) || Covers(c, end))
  }

  /**
   * A round keeps its candidate exactly when the candidate's box overlaps no
   * indexed box and contains neither the start nor the goal.
   */
  lemma KeptBoxSound(existing: seq<Box>, bounds: seq<Interval>, start: Point, end: Point, draw: ObstacleDraw)
    requires WellFormedBounds(bounds)
    requires DrawOk(draw, |bounds|)
    requires |start| == |bounds| && |end| == |bounds|
    ensures var b := RoundBox(bounds, draw);
      Keeps(existing, bounds, start, end, draw) <==> NoneIntersect(existing, b) && !InBox(start, b) && !InBox(end, b)
  {
    var c := MakeCandidate(bounds, draw);
    CountIntersectingZero(existing, CandidateBox(c));
    CoversIffInBox(c, start);
    CoversIffInBox(c, end);
  }

  /** The round's flags and box decide `Keeps` exactly as the source's skip test does. */
  lemma KeepsByFlags(existing: seq<Box>, bounds: seq<Interval>, start: Point, end: Point, draw: ObstacleDraw,
                     box: Box, sCollision: bool, fCollision: bool)
    requires WellFormedBounds(bounds)
    requires DrawOk(draw, |bounds|)
    requires |start| == |bounds| && |end| == |bounds|
    requires box == RoundBox(bounds, draw)
    requires sCollision <==> Covers(MakeCandidate(bounds, draw), start)
    requires fCollision <==> Covers(MakeCandidate(bounds, draw), end)
    ensures Keeps(existing, bounds, start, end, draw) <==> !(CountIntersecting(existing, box) > 0 || sCollision || fCollision)
  {
  }

  predicate AllDrawsOk(draws: seq<ObstacleDraw>, d: nat)
  {
    forall i :: 0 <= i < |draws| ==> DrawOk(draws[i], d)
  }

  /** The boxes kept over all rounds, in order; each kept box joins the index for later rounds. */
  function Accepted(existing: seq<Box>, bounds: seq<Interval>, start: Point, end: Point, draws: seq<ObstacleDraw>): (acc: seq<Box>)
    requires WellFormedBounds(bounds)
    requires AllDrawsOk(draws, |bounds|)
    requires |start| == |bounds| && |end| == |bounds|
    ensures |acc| <= |draws|
    decreases |draws|
  {
    if draws == [] then []
    else if Keeps(existing, bounds, start, end, draws[0]) then
      var b := RoundBox(bounds, draws[0]);
      [b] + Accepted(existing + [b], bounds, start, end, draws[1..])
    else
      Accepted(existing, bounds, start, end, draws[1..])
  }

  /** One round of `Accepted`: keep the candidate and extend the index, or skip it. */
  lemma AcceptedRound(existing: seq<Box>, bounds: seq<Interval>, start: Point, end: Point, draws: seq<ObstacleDraw>, i: nat)
    requires WellFormedBounds(bounds)
    requires AllDrawsOk(draws, |bounds|)
    requires |start| == |bounds| && |end| == |bounds|
    requires i < |draws|
    ensures var b := RoundBox(bounds, draws[i]);
      Accepted(existing, bounds, start, end, draws[i..]) ==
        if Keeps(existing, bounds, start, end, draws[i]) then
          [b] + Accepted(existing + [b], bounds, start, end, draws[i + 1..])
        else
          Accepted(existing, bounds, start, end, draws[i + 1..])
  {
    assert draws[i..][0] == draws[i] && draws[i..][1..] == draws[i + 1..];
  }

  /** The loop's bookkeeping for a kept round: the kept prefix grows by the round's box. */
  lemma AcceptedProgressKeep(acc: seq<Box>, index: seq<Box>, bounds: seq<Interval>, start: Point, end: Point,
                             draws: seq<ObstacleDraw>, i: nat, all: seq<Box>)
    requires WellFormedBounds(bounds)
    requires AllDrawsOk(draws, |bounds|)
    requires |start| == |bounds| && |end| == |bounds|
    requires i < |draws|
    requires acc + Accepted(index, bounds, start, end, draws[i..]) == all
    requires Keeps(index, bounds, start, end, draws[i])
    ensures (acc + [RoundBox(bounds, draws[i])])
      + Accepted(index + [RoundBox(bounds, draws[i])], bounds, start, end, draws[i + 1..]) == all
  {
    AcceptedRound(index, bounds, start, end, draws, i);
  }

  /** The loop's bookkeeping for a skipped round: nothing is kept. */
  lemma AcceptedProgressSkip(acc: seq<Box>, index: seq<Box>, bounds: seq<Interval>, start: Point, end: Point,
                             draws: seq<ObstacleDraw>, i: nat, all: seq<Box>)
    requires WellFormedBounds(bounds)
    requires AllDrawsOk(draws, |bounds|)
    requires |start| == |bounds| && |end| == |bounds|
    requires i < |draws|
    requires acc + Accepted(index, bounds, start, end, draws[i..]) == all
    requires !Keeps(index, bounds, start, end, draws[i])
    ensures acc + Accepted(index, bounds, start, end, draws[i + 1..]) == all
  {
    AcceptedRound(index, bounds, start, end, draws, i);
  }

  /** The returned list: each kept box as its flat `min + max` vector. */
  function Flats(boxes: seq<Box>): (vs: seq<seq<real>>)
    ensures |vs| == |boxes|
    ensures forall k :: 0 <= k < |boxes| ==> vs[k] == boxes[k].lo + boxes[k].hi
  {
    seq(|boxes|, k requires 0 <= k < |boxes| => Flat(boxes[k]))
  }

  /** Keeping one more box adds its flat vector to the end of the result. */
  lemma FlatsSnoc(boxes: seq<Box>, b: Box)
    ensures Flats(boxes + [b]) == Flats(boxes) + [Flat(b)]
  {
    assert forall k :: 0 <= k < |boxes| ==> (boxes + [b])[k] == boxes[k];
  }

  /**
   * Each box of `acc` is well formed, overlaps neither the boxes of
   * `existing` nor the boxes before it in `acc`, and contains neither the
   * start nor the goal.
   */
  predicate SoundlyAccepted(existing: seq<Box>, d: nat, start: Point, end: Point, acc: seq<Box>)
  {
    forall k :: 0 <= k < |acc| ==>
      && WellFormedBox(acc[k], d)
      && NoneIntersect(existing + acc[..k], acc[k])
      && !InBox(start, acc[k])
      && !InBox(end, acc[k])
  }

  /** The kept boxes are sound with respect to the index they were checked against. */
  lemma {:induction false} AcceptedSound(existing: seq<Box>, bounds: seq<Interval>, start: Point, end: Point, draws: seq<ObstacleDraw>)
    requires WellFormedBounds(bounds)
    requires AllDrawsOk(draws, |bounds|)
    requires |start| == |bounds| && |end| == |bounds|
    ensures SoundlyAccepted(existing, |bounds|, start, end, Accepted(existing, bounds, start, end, draws))
    decreases |draws|
  {
    if draws != [] {
      var b := RoundBox(bounds, draws[0]);
      if Keeps(existing, bounds, start, end, draws[0]) {
        AcceptedSound(existing + [b], bounds, start, end, draws[1..]);
        KeptBoxSound(existing, bounds, start, end, draws[0]);
        SoundCons(existing, |bounds|, start, end, b, Accepted(existing + [b], bounds, start, end, draws[1..]));
      } else {
        AcceptedSound(existing, bounds, start, end, draws[1..]);
      }
    }
  }

  /** A sound box followed by boxes sound against the index that includes it is sound as a whole. */
  lemma SoundCons(existing: seq<Box>, d: nat, start: Point, end: Point, b: Box, rest: seq<Box>)
    requires WellFormedBox(b, d) && NoneIntersect(existing, b) && !InBox(start, b) && !InBox(end, b)
    requires SoundlyAccepted(existing + [b], d, start, end, rest)
    ensures SoundlyAccepted(existing, d, start, end, [b] + rest)
  {
    var acc := [b] + rest;
    assert acc[0] == b && existing + acc[..0] == existing;
    forall k | 1 <= k < |acc|
      ensures NoneIntersect(existing + acc[..k], acc[k])
    {
      assert acc[k] == rest[k - 1];
      assert existing + acc[..k] == (existing + [b]) + rest[..k - 1];
    }
  }

  /**
   * The first per-axis loop of a round: draw each half-length and centre
   * coordinate and track both collision flags.
   */
  method DrawCandidate(bounds: seq<Interval>, start: Point, end: Point, draw: ObstacleDraw)
    returns (center: seq<real>, edgeLengths: seq<real>, sCollision: bool, fCollision: bool)
    requires WellFormedBounds(bounds)
    requires DrawOk(draw, |bounds|)
    requires |start| == |bounds| && |end| == |bounds|
    ensures Candidate(center, edgeLengths) == MakeCandidate(bounds, draw)
    ensures sCollision <==> Covers(MakeCandidate(bounds, draw), start)
    ensures fCollision <==> Covers(MakeCandidate(bounds, draw), end)
  {
    ghost var cand := MakeCandidate(bounds, draw);
    center := [];
    edgeLengths := [];
    sCollision := true;
    fCollision := true;
    var j := 0;
    while j < |bounds|
      invariant 0 <= j <= |bounds|
      invariant center == cand.center[..j]
      invariant edgeLengths == cand.edges[..j]
      invariant sCollision <==> forall m :: 0 <= m < j ==> Abs(start[m] - cand.center[m]) <= cand.edges[m]
      invariant fCollision <==> forall m :: 0 <= m < j ==> Abs(end[m] - cand.center[m]) <= cand.edges[m]
    {
      var edge := EdgeLength(bounds[j], draw.edgeU[j]);
      var c := Center(bounds[j], edge, draw.centerU[j]);
      edgeLengths := edgeLengths + [edge];
      center := center + [c];
      if Abs(start[j] - c) > edge {
        sCollision := false;
      }
      if Abs(end[j] - c) > edge {
        fCollision := false;
      }
      j := j + 1;
    }
    assert center == cand.center && edgeLengths == cand.edges;
  }

  /** The second per-axis loop of a round: the corners `center - edge` and `center + edge`. */
  method Corners(cand: Candidate) returns (minCorner: seq<real>, maxCorner: seq<real>)
    requires |cand.center| == |cand.edges|
    requires forall j :: 0 <= j < |cand.edges| ==> 0.0 < cand.edges[j]
    ensures Box(minCorner, maxCorner) == CandidateBox(cand)
  {
    ghost var target := CandidateBox(cand);
    minCorner := [];
    maxCorner := [];
    var j := 0;
    while j < |cand.center|
      invariant 0 <= j <= |cand.center|
      invariant minCorner == target.lo[..j]
      invariant maxCorner == target.hi[..j]
    {
      minCorner := minCorner + [cand.center[j] - cand.edges[j]];
      maxCorner := maxCorner + [cand.center[j] + cand.edges[j]];
      j := j + 1;
    }
  }

  /** One round's construction: the candidate box, its flat vector and both collision flags. */
  method BuildCandidate(bounds: seq<Interval>, start: Point, end: Point, draw: ObstacleDraw)
    returns (box: Box, obstacle: seq<real>, sCollision: bool, fCollision: bool)
    requires WellFormedBounds(bounds)
    requires DrawOk(draw, |bounds|)
    requires |start| == |bounds| && |end| == |bounds|
    ensures box == RoundBox(bounds, draw)
    ensures obstacle == Flat(box)
    ensures sCollision <==> Covers(MakeCandidate(bounds, draw), start)
    ensures fCollision <==> Covers(MakeCandidate(bounds, draw), end)
  {
    var center, edgeLengths;
    center, edgeLengths, sCollision, fCollision := DrawCandidate(bounds, start, end, draw);
    var minCorner, maxCorner := Corners(Candidate(center, edgeLengths));
    box := Box(minCorner, maxCorner);
    obstacle := minCorner + maxCorner;
  }

  /**
   * One round of `generate_random_obstacles`: build the candidate, skip it
   * when it overlaps the index or covers an endpoint, and otherwise add it
   * to the index and return its flat vector.
   */
  method GenerateRound(space: SearchSpace, start: Point, end: Point, draw: ObstacleDraw)
    returns (kept: bool, obstacle: seq<real>)
    requires space.Valid()
    requires |start| == |space.bounds| && |end| == |space.bounds|
    requires DrawOk(draw, |space.bounds|)
    modifies space
    ensures space.Valid()
    ensures kept <==> Keeps(old(space.obs), space.bounds, start, end, draw)
    ensures kept ==> space.obs == old(space.obs) + [RoundBox(space.bounds, draw)]
    ensures kept ==> obstacle == Flat(RoundBox(space.bounds, draw))
    ensures !kept ==> space.obs == old(space.obs)
  {
    var box, sCollision, fCollision;
    box, obstacle, sCollision, fCollision := BuildCandidate(space.bounds, start, end, draw);
    kept := !(CountIntersecting(space.obs, box) > 0 || sCollision || fCollision);
    KeepsByFlags(space.obs, space.bounds, start, end, draw, box, sCollision, fCollision);
    if kept {
      space.Insert(box);
    }
  }

  /**
   * `generate_random_obstacles(s_space, start, end, n)` with `n == |draws|`:
   * the index grows by exactly the kept boxes, and the result lists them.
   */
  method GenerateRandomObstacles(space: SearchSpace, start: Point, end: Point, draws: seq<ObstacleDraw>)
    returns (obstacles: seq<seq<real>>)
    requires space.Valid()
    requires |start| == |space.bounds| && |end| == |space.bounds|
    requires AllDrawsOk(draws, |space.bounds|)
    modifies space
    ensures space.Valid()
    ensures space.obs == old(space.obs) + Accepted(old(space.obs), space.bounds, start, end, draws)
    ensures obstacles == Flats(Accepted(old(space.obs), space.bounds, start, end, draws))
  {
    var bounds := space.bounds;
    ghost var all := Accepted(space.obs, bounds, start, end, draws);
    ghost var acc: seq<Box> := [];
    obstacles := [];
    var i := 0;
    while i < |draws|
      invariant 0 <= i <= |draws|
      invariant space.Valid()
      invariant space.obs == old(space.obs) + acc
      invariant acc + Accepted(space.obs, bounds, start, end, draws[i..]) == all
      invariant obstacles == Flats(acc)
    {
      ghost var index := space.obs;
      var kept, obstacle := GenerateRound(space, start, end, draws[i]);
      if kept {
        AcceptedProgressKeep(acc, index, bounds, start, end, draws, i, all);
        FlatsSnoc(acc, RoundBox(bounds, draws[i]));
        obstacles := obstacles + [obstacle];
        acc := acc + [RoundBox(bounds, draws[i])];
      } else {
        AcceptedProgressSkip(acc, index, bounds, start, end, draws, i, all);
      }
      i := i + 1;
    }
    assert draws[i..] == [];
  }
}

/**
 * The RRT planner: a single tree of points grown from the start, its
 * vertex and parent-link bookkeeping, nearest-vertex search, extension
 * towards a sample, segment-checked connection, goal connection, path
 * extraction and the solution check.
 *
 * The rtree vertex index is the sequence of inserted vertices (insertion
 * order, duplicates kept); `nearest` is a linear search for the first vertex
 * of least distance and `count(x) != 0` is membership.
 */
module Planner {
  import opened Wrappers
  import opened Geometry
  import opened Space

  /** One entry of `edge_list`: the step length to steer by, and how many extensions use it. */
  datatype EdgeSpec = EdgeSpec(length: real, repeats: nat)

  /**
   * `get_nearest`: the first vertex at least squared distance from `x`
   * (the same order as Euclidean distance). A vertex is its own nearest.
   */
  function Nearest(vs: seq<Point>, x: Point): (r: Point)
    requires |vs| > 0
    requires forall k :: 0 <= k < |vs| ==> |vs[k]| == |x|
    ensures r in vs && |r| == |x|
    ensures forall k :: 0 <= k < |vs| ==> SqDist(x, r) <= SqDist(x, vs[k])
    ensures x in vs ==> r == x
  {
    var r := if |vs| == 1 then vs[0]
      else
        var rest := Nearest(vs[1..], x);
        assert forall k :: 1 <= k < |vs| ==> vs[k] == vs[1..][k - 1];
        if SqDist(x, vs[0]) <= SqDist(x, rest) then vs[0] else rest;
    SqDistZero(x, x);
    SumSqNonneg(Sub(x, r));
    SqDistZero(x, r);
    r
  }

  /** The nearest vertex is nearest in Euclidean distance too. */
  lemma NearestEuclidean(vs: seq<Point>, x: Point, k: int, sqrt: real -> real)
    requires |vs| > 0
    requires forall j :: 0 <= j < |vs| ==> |vs[j]| == |x|
    requires 0 <= k < |vs|
    requires IsSqrt(sqrt)
    ensures EuclideanDistance(x, Nearest(vs, x), sqrt) <= EuclideanDistance(x, vs[k], sqrt)
  {
    DistanceOrderBySquares(x, Nearest(vs, x), vs[k], sqrt);
  }

  /**
   * `p` is a path of parent links from `init` to `goal`: it starts at
   * `init`, ends at `goal`, and every element after the first has its
   * predecessor as parent.
   */
  predicate ParentChain(edges: map<Point, Option<Point>>, init: Point, goal: Point, p: seq<Point>)
  {
    && |p| >= 1
    && p[0] == init
    && p[|p| - 1] == goal
    && forall i :: 1 <= i < |p| ==> p[i] in edges && edges[p[i]] == Some(p[i - 1])
  }

  /** `list.reverse()`. */
  function Reversed(s: seq<Point>): (r: seq<Point>)
    ensures |r| == |s|
    ensures forall i :: 0 <= i < |s| ==> r[i] == s[|s| - 1 - i]
  {
    if s == [] then [] else Reversed(s[1..]) + [s[0]]
  }

  /**
   * A walk from `goal` to `init` by parent links, reversed, is a parent chain
   * from `init` to `goal`.
   */
  lemma ReversedWalkIsChain(edges: map<Point, Option<Point>>, init: Point, goal: Point, walk: seq<Point>)
    requires |walk| >= 1 && walk[0] == goal && walk[|walk| - 1] == init
    requires forall i :: 0 <= i < |walk| - 1 ==> walk[i] in edges && edges[walk[i]] == Some(walk[i + 1])
    ensures ParentChain(edges, init, goal, Reversed(walk))
  {
    var p := Reversed(walk);
    var n := |walk|;
    assert p[0] == init && p[n - 1] == goal;
    forall i | 1 <= i < n
      ensures p[i] in edges && edges[p[i]] == Some(p[i - 1])
    {
      var j := n - 1 - i;
      assert p[i] == walk[j];
      assert p[i - 1] == walk[j + 1];
      assert walk[j] in edges && edges[walk[j]] == Some(walk[j + 1]);
    }
  }

  /**
   * The test of `can_connect_to_goal` on a given vertex index and edge map:
   * the goal is already linked to its nearest vertex, or the segment from
   * that vertex to the goal is collision-free.
   */
  function GoalConnectable(sp: SearchSpace, vs: seq<Point>, edges: map<Point, Option<Point>>,
                           goal: Point, res: real, sqrt: real -> real): bool
    reads sp
    requires |vs| > 0
    requires forall k :: 0 <= k < |vs| ==> |vs[k]| == |goal|
    requires res > 0.0 && IsSqrt(sqrt)
  {
    var near := Nearest(vs, goal);
    (goal in edges && edges[goal] == Some(near)) || sp.CollisionFree(near, goal, res, sqrt)
  }

  class Tree {
    /** `properties.dimension`: the dimension of the search space. */
    const dimension: nat
    /** The vertex index: every inserted vertex, in insertion order. */
    var vertices: seq<Point>
    /** `vertex_count`. */
    var vertexCount: nat
    /** `edges`: child to parent; the root's parent is `None`. */
    var edges: map<Point, Option<Point>>
    /** A rank of each key, strictly larger than its parent's; it bounds the walk in `GetPath`. */
    ghost var depth: map<Point, nat>

    constructor (dimension: nat)
      ensures this.dimension == dimension
      ensures vertices == [] && vertexCount == 0 && edges == map[] && depth == map[]
    {
      this.dimension := dimension;
      vertices := [];
      vertexCount := 0;
      edges := map[];
      depth := map[];
    }
  }

  class RRT {
    const space: SearchSpace
    const tree: Tree
    const edgeList: seq<EdgeSpec>
    const maxSamples: nat
    const resolution: real
    const prc: real
    const xInit: Point
    const xGoal: Point
    /** The square root `np.linalg.norm` relies on. */
    const sqrt: real -> real
    var samplesTaken: nat

    /** Dimensions agree everywhere, the resolution is positive and `vertex_count` counts the vertices. */
    ghost predicate Valid()
      reads this, tree, space
    {
      && space.Valid()
      && tree.dimension == |space.bounds|
      && |xInit| == |space.bounds| && |xGoal| == |space.bounds|
      && resolution > 0.0
      && IsSqrt(sqrt)
      && tree.vertexCount == |tree.vertices|
      && (forall k :: 0 <= k < |tree.vertices| ==> |tree.vertices[k]| == |space.bounds|)
    }

    /**
     * The parent links form a tree rooted at the start: the start is a
     * vertex with parent `None`; every vertex has a link; the only key that
     * may not be a vertex is the goal; and every other key's parent is a
     * vertex strictly closer to the root.
     */
    ghost predicate Forest()
      reads this, tree
    {
      && xInit in tree.vertices
      && xInit in tree.edges && tree.edges[xInit] == None
      && (forall v :: v in tree.vertices ==> v in tree.edges)
      && (forall k :: k in tree.edges ==> k in tree.depth && (k in tree.vertices || k == xGoal))
      && (forall k :: k in tree.edges && k != xInit ==>
            && tree.edges[k].Some?
            && tree.edges[k].value in tree.vertices
            && tree.edges[k].value in tree.depth
            && tree.depth[tree.edges[k].value] < tree.depth[k])
    }

    constructor (space: SearchSpace, edgeList: seq<EdgeSpec>, xInit: Point, xGoal: Point,
                 maxSamples: nat, resolution: real, prc: real, sqrt: real -> real)
      requires space.Valid()
      requires |xInit| == |space.bounds| && |xGoal| == |space.bounds|
      requires resolution > 0.0
      requires IsSqrt(sqrt)
      ensures Valid()
      ensures this.space == space && this.edgeList == edgeList
      ensures this.xInit == xInit && this.xGoal == xGoal
      ensures this.maxSamples == maxSamples && this.resolution == resolution && this.prc == prc
      ensures fresh(tree) && tree.vertices == [] && tree.edges == map[]
      ensures samplesTaken == 0
    {
      this.space := space;
      this.edgeList := edgeList;
      this.xInit := xInit;
      this.xGoal := xGoal;
      this.maxSamples := maxSamples;
      this.resolution := resolution;
      this.prc := prc;
      this.sqrt := sqrt;
      samplesTaken := 0;
      tree := new Tree(|space.bounds|);
    }

    /** `add_vertex`: insert `v`; both counters go up by one. */
    method AddVertex(v: Point)
      modifies tree, this
      ensures tree.vertices == old(tree.vertices) + [v]
      ensures tree.vertexCount == old(tree.vertexCount) + 1
      ensures samplesTaken == old(samplesTaken) + 1
      ensures tree.edges == old(tree.edges) && tree.depth == old(tree.depth)
    {
      tree.vertices := tree.vertices + [v];
      tree.vertexCount := tree.vertexCount + 1;
      samplesTaken := samplesTaken + 1;
    }

    /** `add_edge`: set the parent of `child`; no other key changes. */
    method AddEdge(child: Point, parent: Option<Point>)
      modifies tree
      ensures tree.edges == old(tree.edges)[child := parent]
      ensures child in tree.edges && tree.edges[child] == parent
      ensures forall k :: k in old(tree.edges) && k != child ==> k in tree.edges && tree.edges[k] == old(tree.edges)[k]
      ensures tree.edges.Keys == old(tree.edges.Keys) + {child}
      ensures tree.vertices == old(tree.vertices) && tree.vertexCount == old(tree.vertexCount)
      ensures tree.depth == old(tree.depth)
    {
      tree.edges := tree.edges[child := parent];
    }

    /** The first two statements of `search`: the start becomes the root. */
    method Seed()
      requires Valid()
      modifies tree, this
      ensures Valid()
      ensures (old(tree.edges) == map[] && old(tree.vertices) == []) || old(Forest()) ==> Forest()
      ensures tree.vertices == old(tree.vertices) + [xInit]
      ensures tree.edges == old(tree.edges)[xInit := None]
      ensures samplesTaken == old(samplesTaken) + 1
    {
      AddVertex(xInit);
      AddEdge(xInit, None);
      tree.depth := tree.depth[xInit := 0];
    }

    /** `bounded`: clamp into the search box; a point already inside is returned unchanged. */
    function Bounded(p: Point): (q: Point)
      reads this, space
      requires |p| == |space.bounds|
      requires WellFormedBounds(space.bounds)
      ensures InBounds(q, space.bounds)
      ensures InBounds(p, space.bounds) ==> q == p
    {
      ClampInBounds(p, space.bounds);
      ClampKeepsInside(p, space.bounds);
      Clamp(p, space.bounds)
    }

    /**
     * `get_new_and_near(tree, edge)` for the sample `xRand` and step length
     * `step`: steer from the nearest vertex towards the sample, clamp, and
     * reject a candidate that is already a vertex or lies in an obstacle.
     */
    method GetNewAndNear(xRand: Point, step: real) returns (xNew: Option<Point>, xNearest: Option<Point>)
      requires Valid()
      requires |tree.vertices| > 0
      requires |xRand| == |space.bounds|
      requires xRand !in tree.vertices
      modifies this
      ensures Valid()
      ensures var near := Nearest(tree.vertices, xRand);
        var cand := Clamp(Steer(near, xRand, step, sqrt), space.bounds);
        if cand in tree.vertices || !space.ObstacleFree(cand) then
          xNew == None && xNearest == None && samplesTaken == old(samplesTaken)
        else
          xNew == Some(cand) && xNearest == Some(near) && samplesTaken == old(samplesTaken) + 1
      ensures xNew.Some? ==>
        && xNearest.Some? && xNearest.value in tree.vertices
        && |xNew.value| == |space.bounds|
        && InBounds(xNew.value, space.bounds)
        && xNew.value !in tree.vertices
        && space.ObstacleFree(xNew.value)
    {
      var near := Nearest(tree.vertices, xRand);
      var cand := Bounded(Steer(near, xRand, step, sqrt));
      if cand in tree.vertices || !space.ObstacleFree(cand) {
        return None, None;
      }
      samplesTaken := samplesTaken + 1;
      return Some(cand), Some(near);
    }

    /**
     * `connect_to_point(tree, x_a, x_b)`: link `xB` under `xA` when `xB` is
     * not yet a vertex and the segment between them is collision-free;
     * otherwise change nothing.
     */
    method ConnectToPoint(xA: Point, xB: Point) returns (connected: bool)
      requires Valid()
      requires |xA| == |space.bounds| && |xB| == |space.bounds|
      modifies tree, this
      ensures Valid()
      ensures connected <==> old(xB !in tree.vertices) && space.CollisionFree(xA, xB, resolution, sqrt)
      ensures connected ==>
        && tree.vertices == old(tree.vertices) + [xB]
        && tree.edges == old(tree.edges)[xB := Some(xA)]
        && samplesTaken == old(samplesTaken) + 1
      ensures !connected ==>
        && tree.vertices == old(tree.vertices)
        && tree.edges == old(tree.edges)
        && samplesTaken == old(samplesTaken)
      ensures old(Forest()) && xA in old(tree.vertices) ==> Forest()
    {
      if xB !in tree.vertices && space.CollisionFree(xA, xB, resolution, sqrt) {
        AddVertex(xB);
        AddEdge(xB, Some(xA));
        tree.depth := tree.depth[xB := if xA in tree.depth then tree.depth[xA] + 1 else 0];
        return true;
      }
      return false;
    }

    /**
     * `can_connect_to_goal(tree)`: the goal is already linked to its nearest
     * vertex, or the segment from that vertex to the goal is collision-free.
     * A goal that is already a vertex, or lies within one resolution step of
     * its nearest vertex, always counts as reachable.
     */
    function CanConnectToGoal(): (can: bool)
      reads this, tree, space
      requires Valid()
      requires |tree.vertices| > 0
      ensures var near := Nearest(tree.vertices, xGoal);
        && (PointCount(near, xGoal, resolution, sqrt) <= 1 ==> can)
        && (xGoal in tree.vertices ==> can)
        && (can ==> (xGoal in tree.edges && tree.edges[xGoal] == Some(near))
                    || space.CollisionFree(near, xGoal, resolution, sqrt))
    {
      assert xGoal in tree.vertices ==> EuclideanDistance(Nearest(tree.vertices, xGoal), xGoal, sqrt) / resolution == 0.0;
      GoalConnectable(space, tree.vertices, tree.edges, xGoal, resolution, sqrt)
    }

    /**
     * `get_path()`: when the goal can be reached, link it to its nearest
     * vertex (unless it is a vertex already) and walk the parent links back
     * to the start. The result is `[x_goal]` when start and goal coincide,
     * and otherwise a parent chain from the start to the goal.
     */
    method GetPath() returns (path: Option<seq<Point>>)
      requires Valid() && Forest()
      modifies tree
      ensures Valid() && Forest()
      ensures path.Some? <==> old(CanConnectToGoal())
      ensures path.Some? && xInit == xGoal ==> path.value == [xGoal]
      ensures path.Some? ==> ParentChain(tree.edges, xInit, xGoal, path.value)
      ensures path.Some? ==> forall i :: 0 <= i < |path.value| - 1 ==> path.value[i] in tree.vertices
      ensures tree.vertices == old(tree.vertices) && tree.vertexCount == old(tree.vertexCount)
      ensures tree.edges ==
        if path.Some? && xGoal !in old(tree.vertices)
        then old(tree.edges)[xGoal := Some(Nearest(tree.vertices, xGoal))]
        else old(tree.edges)
    {
      if !CanConnectToGoal() {
        return None;
      }
      var near := Nearest(tree.vertices, xGoal);
      if near != xGoal {
        LinkGoal(near);
      }
      if xInit == xGoal {
        return Some([xGoal]);
      }
      var walk := WalkToRoot();
      ReversedWalkIsChain(tree.edges, xInit, xGoal, walk);
      return Some(Reversed(walk));
    }

    /** The goal's link in `get_path`: a goal that is not a vertex gets `near` as parent. */
    method LinkGoal(near: Point)
      requires Valid() && Forest()
      requires near in tree.vertices && xGoal !in tree.vertices
      modifies tree
      ensures Valid() && Forest()
      ensures tree.edges == old(tree.edges)[xGoal := Some(near)]
      ensures tree.vertices == old(tree.vertices) && tree.vertexCount == old(tree.vertexCount)
    {
      tree.edges := tree.edges[xGoal := Some(near)];
      tree.depth := tree.depth[xGoal := tree.depth[near] + 1];
    }

    /**
     * The walk of `get_path`: from the goal, follow parent links until the
     * parent is the start. It lists the goal first and the start last, each
     * element's parent is the next element, and every element after the goal
     * is a vertex.
     */
    method WalkToRoot() returns (walk: seq<Point>)
      requires Forest()
      requires xGoal in tree.edges && xGoal != xInit
      ensures |walk| >= 2 && walk[0] == xGoal && walk[|walk| - 1] == xInit
      ensures forall i :: 0 <= i < |walk| - 1 ==> walk[i] in tree.edges && tree.edges[walk[i]] == Some(walk[i + 1])
      ensures forall i :: 1 <= i < |walk| ==> walk[i] in tree.vertices
    {
      walk := [xGoal];
      var current := xGoal;
      while tree.edges[current] != Some(xInit)
        invariant current in tree.edges && current != xInit
        invariant |walk| >= 1 && walk[0] == xGoal && walk[|walk| - 1] == current
        invariant forall i :: 0 <= i < |walk| - 1 ==> walk[i] in tree.edges && tree.edges[walk[i]] == Some(walk[i + 1])
        invariant forall i :: 1 <= i < |walk| ==> walk[i] in tree.vertices
        decreases tree.depth[current]
      {
        var parent := tree.edges[current].value;
        walk := walk + [parent];
        current := parent;
      }
      walk := walk + [xInit];
    }

    /**
     * `check_solution()` with `r` standing for `random.random()`: with a
     * non-zero `prc` and `r < prc` try for a path; once the sample budget is
     * spent, stop with whatever `get_path` returns.
     */
    method CheckSolution(r: real) returns (done: bool, path: Option<seq<Point>>)
      requires Valid() && Forest()
      modifies tree
      ensures Valid() && Forest()
      ensures path.Some? <==> ((prc != 0.0 && r < prc) || samplesTaken >= maxSamples) && old(CanConnectToGoal())
      ensures done <==> path.Some? || samplesTaken >= maxSamples
      ensures path.Some? && xInit == xGoal ==> path.value == [xGoal]
      ensures path.Some? ==> ParentChain(tree.edges, xInit, xGoal, path.value)
      ensures tree.vertices == old(tree.vertices) && tree.vertexCount == old(tree.vertexCount)
      ensures tree.edges ==
        if path.Some? && xGoal !in old(tree.vertices)
        then old(tree.edges)[xGoal := Some(Nearest(tree.vertices, xGoal))]
        else old(tree.edges)
    {
      if prc != 0.0 && r < prc {
        path := GetPath();
        if path.Some? {
          return true, path;
        }
      }
      if samplesTaken >= maxSamples {
        path := GetPath();
        return true, path;
      }
      return false, None;
    }

    /**
     * One pass of the innermost loop of `search` for the entry `edgeList[q]`:
     * steer from the nearest vertex towards the sample `xRand` by that
     * entry's length and clamp; a candidate that is already a vertex or lies
     * in an obstacle ends the pass with the state unchanged. Otherwise the
     * candidate is counted, linked under its nearest vertex when the segment
     * between them is collision-free, and the solution check runs with the
     * draw `r` on the resulting tree.
     */
    method SearchIteration(q: nat, xRand: Point, r: real) returns (done: bool, path: Option<seq<Point>>)
      requires Valid() && Forest()
      requires q < |edgeList|
      requires |xRand| == |space.bounds|
      requires xRand !in tree.vertices
      modifies tree, this
      ensures Valid() && Forest()
      ensures var near := Nearest(old(tree.vertices), xRand);
        var cand := Clamp(Steer(near, xRand, edgeList[q].length, sqrt), space.bounds);
        if cand in old(tree.vertices) || !space.ObstacleFree(cand) then
          && !done && path.None?
          && tree.vertices == old(tree.vertices) && tree.edges == old(tree.edges)
          && samplesTaken == old(samplesTaken)
        else
          var linked := space.CollisionFree(near, cand, resolution, sqrt);
          var vs := if linked then old(tree.vertices) + [cand] else old(tree.vertices);
          var es := if linked then old(tree.edges)[cand := Some(near)] else old(tree.edges);
          var count := old(samplesTaken) + if linked then 2 else 1;
          && tree.vertices == vs
          && samplesTaken == count
          && (path.Some? <==> ((prc != 0.0 && r < prc) || count >= maxSamples)
                              && GoalConnectable(space, vs, es, xGoal, resolution, sqrt))
          && (done <==> path.Some? || count >= maxSamples)
          && tree.edges == (if path.Some? && xGoal !in vs then es[xGoal := Some(Nearest(vs, xGoal))] else es)
      ensures path.Some? && xInit == xGoal ==> path.value == [xGoal]
      ensures path.Some? ==> ParentChain(tree.edges, xInit, xGoal, path.value)
    {
      var xNew, xNearest := GetNewAndNear(xRand, edgeList[q].length);
      if xNew.None? {
        return false, None;
      }
      var _ := ConnectToPoint(xNearest.value, xNew.value);
      done, path := CheckSolution(r);
    }
  }

  // -----------------------------------------------------------------------
  // `get_path` as written

  /**
   * The link `get_path` writes before its walk, as written: the goal's parent
   * becomes its nearest vertex even when that vertex is the goal itself.
   */
  function RehomeAsWritten(edges: map<Point, Option<Point>>, goal: Point, near: Point): (e: map<Point, Option<Point>>)
    ensures goal in e && e[goal] == Some(near)
  {
    edges[goal := Some(near)]
  }

  /** The walk's current point after `n` passes of its loop body; `None` when a link is missing. */
  function WalkAsWritten(edges: map<Point, Option<Point>>, current: Point, n: nat): Option<Point>
    decreases n
  {
    if n == 0 then Some(current)
    else if current in edges && edges[current].Some? then WalkAsWritten(edges, edges[current].value, n - 1)
    else None
  }

  /**
   * When the goal is already a vertex and differs from the start, its nearest
   * vertex is itself, so the goal becomes its own parent: the loop guard
   * `edges[current] != x_init` holds after every number of passes and the
   * walk never ends.
   */
  lemma {:induction false} GetPathAsWrittenDiverges(vs: seq<Point>, edges: map<Point, Option<Point>>,
                                                   init: Point, goal: Point, n: nat)
    requires goal in vs
    requires forall k :: 0 <= k < |vs| ==> |vs[k]| == |goal|
    requires goal != init
    ensures var e := RehomeAsWritten(edges, goal, Nearest(vs, goal));
      WalkAsWritten(e, goal, n) == Some(goal) && e[goal] != Some(init)
  {
    var e := RehomeAsWritten(edges, goal, Nearest(vs, goal));
    assert e[goal] == Some(goal);
    if n > 0 {
      GetPathAsWrittenDiverges(vs, edges, init, goal, n - 1);
    }
  }
}

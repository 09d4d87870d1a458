# RRT motion planner in Dafny

This project models the Rapidly-exploring Random Tree planner of the
`RRT_Search` package and proves properties of the model. The model has
three parts.

- **The configuration space** (`Search_Space`) holds the bounding box and an obstacle index. It validates its arguments at construction, answers point and discretised-segment collision queries, and samples points.
- **The obstacle generator** draws random boxes around random centres. It keeps a box only if it overlaps no box already in the index and covers neither the start nor the goal.
- **The planner** holds one tree of points grown from the start, with a child-to-parent edge map. It extends the tree towards samples by steering and clamping, connects new points after a segment check, links the goal to its nearest vertex, and walks parent links back to the start to produce a path. A sample budget forces it to stop.

The project's modules:

- `Wrappers` holds `Option` and `Result`.
- `Geometry` holds the pure arithmetic of `rrt.py`: squared distance, Euclidean distance, `steer`, `get_points`, `bounded` (clamping) and closed boxes.
- `ObstacleStream` holds `obstacle_generator`.
- `Space` holds `Search_Space`.
- `ObsGenerator` holds `generate_random_obstacles`.
- `Planner` holds `Tree` and `RRT`.

`ObstacleStream` is its own module because `Search_Space` uses it and the generator uses `Search_Space`.

Modelling choices:

- **Numbers.** Coordinates are mathematical reals, and a point is a `seq<real>`.
- **Square root.** The square root behind `np.linalg.norm` is a function parameter `sqrt`. The model assumes that `sqrt(x)` is non-negative and squares back to `x`.
- **Nearest vertex.** The nearest-vertex search compares squared distances. `Geometry.DistanceOrderBySquares` proves this orders points the same way as Euclidean distance.
- **Spatial indexes.** Both rtree indexes are sequences. The vertex index keeps insertion order and keeps duplicates. A point query counts the stored boxes that contain the point. An intersection query counts the overlapping closed boxes.
- **Randomness.** Every random draw is an explicit input:
  - a draw from `np.random.uniform(lo, hi)` or `random.uniform(a, b)` is `a + (b - a) * u` for a unit draw `u` in `[0, 1)`;
  - `random.random()` is the parameter `r` of `CheckSolution`.
- **Sample counter.** `samples_taken` goes up twice for each extension that is kept and connected: once in `get_new_and_near` (`rrt.py:129`) and once in `add_vertex` (`rrt.py:103`). An extension that passes `get_new_and_near` but fails the segment check is counted once.
- **Obstacle index.** `generate_random_obstacles` adds each kept box to the search space's index after construction (`obs_generator.py:48`), so `obs` is a mutable field of the space.

## Model

| member | source | states |
|---|---|---|
| Geometry.EuclideanDistance | RRT_Search/rrt.py:21-31 | The distance is non-negative and its square is the sum of squared coordinate differences. It is zero exactly when the two points are equal. |
| Geometry.DistanceSymmetric | RRT_Search/rrt.py:31 | The distance from a to b equals the distance from b to a. |
| Geometry.Steer | RRT_Search/rrt.py:44-59 | `steer` yields a point of the start's dimension, and a zero step stays at start. Its position on the ray is stated by SteerOnRay, SteerEndpoints and SteerOvershoots. |
| Geometry.SteerDistance | RRT_Search/rrt.py:55-59 | A step of non-negative length `d` lands at Euclidean distance exactly `d` from start. |
| Geometry.DistanceOrderBySquares | RRT_Search/rrt.py:31 | One point is no farther than another in Euclidean distance exactly when its squared distance is no larger. |
| Geometry.SteerOnRay | RRT_Search/rrt.py:44-59 | `steer(start, end, d)` lies on the ray from start through end. Its offset is `d / |end - start|` times `end - start`, and its squared distance from start is exactly `d²`. |
| Geometry.SteerEndpoints | RRT_Search/rrt.py:55-59 | Steering by the full distance lands on end. Steering by zero stays at start. |
| Geometry.SteerOvershoots | RRT_Search/rrt.py:55-59 | Steering does not clamp at end. A step longer than `|end - start|` lands beyond end on the same ray and is farther from start than end is. |
| Geometry.Ceil | RRT_Search/rrt.py:36 | `int(np.ceil(x))` is the least integer not below x. |
| Geometry.CountAboveOneApart | RRT_Search/rrt.py:35-39 | A point count above one implies distinct endpoints, so the step is well defined. |
| Geometry.Points | RRT_Search/rrt.py:34-42 | `get_points` yields `no_points` points when that count is above one and none otherwise, each of the start's dimension. |
| Geometry.PointsShortSegment | RRT_Search/rrt.py:35-38 | A segment no longer than the resolution yields no points. |
| Geometry.PointsShape | RRT_Search/rrt.py:38-42 | With a count above one, exactly `no_points` points are yielded. The i-th point is at distance `i * step` from start, the first is start and the last is end. |
| Geometry.PointsEndpoints | RRT_Search/rrt.py:38-42 | With a count above one, the first point yielded is start and the last is end. |
| Geometry.PointsElement | RRT_Search/rrt.py:39-42 | The i-th point yielded is `steer(start, end, i * step)` with `step = dist / (no_points - 1)`. |
| Geometry.GetPoints | RRT_Search/rrt.py:34-42 | The generator loop builds exactly the list of points described above. |
| Geometry.Clamp | RRT_Search/rrt.py:141-143 | Each clamped coordinate is the original one or a bound of its interval. A coordinate below its interval becomes the lower bound; one above becomes the upper bound. |
| Geometry.ClampInBounds | RRT_Search/rrt.py:141-143 | A clamped point lies in the search box. |
| Geometry.ClampKeepsInside | RRT_Search/rrt.py:141-143 | A point already in the box is unchanged by clamping. |
| Geometry.ClampIdempotent | RRT_Search/rrt.py:141-143 | Clamping twice is the same as clamping once. |
| Geometry.Uniform | RRT_Search/obs_generator.py:30-31 | `a + (b - a) * u` for a unit draw `u` in `[0, 1)`. With `a < b` it lies in `[a, b)`, as `np.random.uniform` and the centre draw use it. With the bounds given high first it lies in `(b, a]`, as the edge-length draw uses it. With equal bounds it is that bound. |
| ObstacleStream.ObstacleGenerator | RRT_Search/obs_generator.py:52-54 | Yields exactly one triple per obstacle, in order. Each triple carries the supplied id, and both its box and its payload are the obstacle. |
| Space.SpaceErrorOf | RRT_Search/search_space.py:16-31 | No exception is raised exactly when all of these hold: there are at least two dimensions, every entry is an ordered pair, every obstacle has length twice the dimension count, and every obstacle has min below max on each axis. |
| Space.ValidateSpace | RRT_Search/search_space.py:16-31 | The constructor's checks, in source order, raise exactly the first failing condition's exception. |
| Space.BoundsOf | RRT_Search/search_space.py:19-22 | The validated entries become well-formed intervals, one per dimension. |
| Space.BoxesOf | RRT_Search/search_space.py:28-32 | Each validated obstacle becomes a well-formed box whose flat vector is the obstacle itself. |
| Space.NewSearchSpace | RRT_Search/search_space.py:9-32 | Construction fails exactly when the input is invalid, with the first failing condition as its error. Otherwise it yields a valid space holding the given bounds and one box per obstacle. |
| Space.CountContaining | RRT_Search/search_space.py:35 | The rtree point query `count(x)` counts stored boxes containing `x`, so it is at most the number of boxes. |
| Space.CountZeroIffNoneContains | RRT_Search/search_space.py:34-35 | A point query's count is zero exactly when no box contains the point. |
| Space.CountIntersecting | RRT_Search/obs_generator.py:45 | The rtree `intersection(obstacle)` query, counted, is at most the number of stored boxes. |
| Space.CountIntersectingZero | RRT_Search/obs_generator.py:45 | An intersection query's count is zero exactly when no stored box overlaps the query box. |
| Space.SearchSpace.constructor | RRT_Search/search_space.py:22-32 | A space built from validated intervals and boxes holds exactly those bounds and boxes and is valid. |
| Space.SearchSpace.ObstacleFree | RRT_Search/search_space.py:34-35 | `obstacle_free(x)` holds exactly when no stored box contains x. With no obstacles it always holds. |
| Space.SearchSpace.Sample | RRT_Search/search_space.py:48-50 | Every coordinate of a sample lies in `[lo, hi)` of its dimension. |
| Space.SearchSpace.SampleFree | RRT_Search/search_space.py:37-41 | A returned sample is obstacle-free and in bounds, and it is the first free one among the draws. None means no draw was free. |
| Space.SearchSpace.CollisionFree | RRT_Search/search_space.py:43-46 | The segment check holds outright when the segment yields at most one point. |
| Space.CollisionFreeSteered | RRT_Search/search_space.py:43-46 | With more than one point, the check holds exactly when each `steer(start, end, i * step)` is obstacle-free. |
| Space.CollisionFreeEndpoints | RRT_Search/search_space.py:43-46 | A segment that passes the check with more than one point has both endpoints obstacle-free. |
| Space.SearchSpace.Insert | RRT_Search/obs_generator.py:48 | Adding a well-formed box appends exactly that box and keeps the space valid. |
| ObsGenerator.EdgeLength | RRT_Search/obs_generator.py:27-30 | The half-length is drawn between `diff/100` and `diff/10`, so it is positive. |
| ObsGenerator.Center | RRT_Search/obs_generator.py:31 | The centre coordinate lies in `[lo + e, hi + e)`. |
| ObsGenerator.MakeCandidate | RRT_Search/obs_generator.py:20-32 | Every axis of a candidate has a positive half-length and a centre in the shifted range. |
| ObsGenerator.CandidateBox | RRT_Search/obs_generator.py:39-44 | The box `center - edge` to `center + edge` is well formed. |
| ObsGenerator.RoundBox | RRT_Search/obs_generator.py:39-44 | Each round's candidate box is well formed in the space's dimension. |
| ObsGenerator.CoversIffInBox | RRT_Search/obs_generator.py:21-37 | A collision flag stays True exactly when the point lies in the candidate's closed box. |
| ObsGenerator.KeptBoxSound | RRT_Search/obs_generator.py:45-47 | The skip rule: a round keeps its candidate exactly when the candidate box overlaps no indexed box and contains neither the start nor the goal. |
| ObsGenerator.AcceptedRound | RRT_Search/obs_generator.py:19-48 | Each round either keeps its box, which then joins the index for later rounds, or skips it. |
| ObsGenerator.Accepted | RRT_Search/obs_generator.py:19-48 | The boxes the rounds keep, in order, each round checked against the index grown by the earlier kept boxes. At most one box is kept per round. |
| ObsGenerator.AcceptedSound | RRT_Search/obs_generator.py:45-48 | Each kept box is well formed and contains neither endpoint. It overlaps none of the earlier boxes, whether they were in the index before the call or were kept earlier in the call. |
| ObsGenerator.DrawCandidate | RRT_Search/obs_generator.py:20-37 | The first per-axis loop computes the candidate's half-lengths and centre, and both flags equal coverage of start and goal. |
| ObsGenerator.Corners | RRT_Search/obs_generator.py:39-43 | The corner loop builds exactly the candidate box. |
| ObsGenerator.BuildCandidate | RRT_Search/obs_generator.py:20-44 | One round computes the candidate box, its flat `min + max` vector and both flags. |
| ObsGenerator.GenerateRound | RRT_Search/obs_generator.py:20-48 | One round keeps its candidate exactly under the skip rule. A kept box is appended to the index and returned as its flat vector; a skipped round leaves the index unchanged. |
| ObsGenerator.GenerateRandomObstacles | RRT_Search/obs_generator.py:6-50 | The index grows by exactly the kept boxes, and the returned list is their flat vectors in order. |
| Planner.Nearest | RRT_Search/rrt.py:108-109 | The result is a vertex of least squared distance from the query point. A vertex is its own nearest. |
| Planner.NearestEuclidean | RRT_Search/rrt.py:108-109 | The nearest vertex is no farther from the query in Euclidean distance than any other vertex. |
| Planner.Reversed | RRT_Search/rrt.py:187 | `list.reverse()` puts the i-th element from the end at position i. |
| Planner.ReversedWalkIsChain | RRT_Search/rrt.py:183-188 | A goal-to-start walk by parent links, once reversed, is a parent chain from start to goal. |
| Planner.Tree.constructor | RRT_Search/rrt.py:8-18 | A new tree has no vertices, no edges and a zero count. |
| Planner.RRT.constructor | RRT_Search/rrt.py:63-73 | The planner stores its configuration, starts with an empty tree and has taken no samples. |
| Planner.RRT.AddVertex | RRT_Search/rrt.py:100-102 | `add_vertex` appends the vertex and raises both counters by exactly one. |
| Planner.RRT.AddEdge | RRT_Search/rrt.py:105-106 | `add_edge` sets the child's parent and leaves every other key unchanged. |
| Planner.RRT.Seed | RRT_Search/rrt.py:81-82 | Seeding makes the start the root with parent None, which establishes the tree invariant. |
| Planner.RRT.Bounded | RRT_Search/rrt.py:132-143 | `bounded` returns a point in the box, and a point already inside is returned unchanged. |
| Planner.RRT.GetNewAndNear | RRT_Search/rrt.py:111-130 | A clamped candidate that is already a vertex or lies in an obstacle yields (None, None) with the counter unchanged. Any other candidate is returned with its nearest vertex, and the counter goes up by one. |
| Planner.RRT.ConnectToPoint | RRT_Search/rrt.py:145-150 | Returns True exactly when x_b was not a vertex and the segment is collision-free. Then x_b becomes a vertex with parent x_a; otherwise no state changes. The tree invariant is preserved. |
| Planner.RRT.CanConnectToGoal | RRT_Search/rrt.py:152-166 | Evaluates the test `GoalConnectable` on the current tree: the goal is linked to its nearest vertex, or the segment from that vertex is collision-free. Returns True when the goal is already a vertex, or when the segment from its nearest vertex yields at most one check point. A True result means the goal is already linked to that vertex or the segment to it is collision-free. |
| Planner.RRT.GetPath | RRT_Search/rrt.py:168-189 | Returns a path exactly when the goal can be connected. The path is `[x_goal]` when start equals goal, and otherwise a parent chain from start to goal through vertices. Only the goal's own link changes, and the tree invariant is preserved. |
| Planner.RRT.LinkGoal | RRT_Search/rrt.py:176-177 | A goal that is not a vertex is re-homed under its nearest vertex, and the tree invariant is preserved. |
| Planner.RRT.WalkToRoot | RRT_Search/rrt.py:178-186 | The walk runs from the goal to the start, and each element's parent is the next element. |
| Planner.RRT.CheckSolution | RRT_Search/rrt.py:192-207 | A path is returned exactly when the goal can be connected on the tree as it stood, and either the random gate is open (`prc` non-zero and the draw below it) or the budget is spent. The result is done exactly when there is a path or the budget is spent. The path is `[x_goal]` when start equals goal and otherwise a parent chain. The only edge that changes is the goal's link, set to its nearest vertex when a path is returned and the goal was not a vertex. |
| Planner.RRT.SearchIteration | RRT_Search/rrt.py:84-95 | For the entry `edge_list[q]`: the candidate is the clamped point steered from the sample's nearest vertex by that entry's length. A candidate that is a vertex or lies in an obstacle ends the pass not done, with nothing changed. Otherwise the counter rises by one, and by one more when the segment from the nearest vertex is collision-free, in which case the candidate joins the tree under that vertex. The outcome is then that of `check_solution` on the resulting tree, and the tree invariant is preserved. |
| Planner.RehomeAsWritten | RRT_Search/rrt.py:176-177 | The goal's parent becomes its nearest vertex, even when that vertex is the goal itself. |
| Planner.GetPathAsWrittenDiverges | RRT_Search/rrt.py:174-185 | As written, a goal that is already a vertex (and is not the start) becomes its own parent. `WalkAsWritten`, the walk's position after `n` passes of its loop body, then stays at the goal for every `n`, so the walk never ends. |

## Left out

- Floating point:
  - NaN, infinities and rounding are not modelled.
  - The generator stores centres and corners as `float32`; they are reals here.
  - `np.linalg.norm` is abstracted as the square root of the sum of squares.
- rtree internals: balancing, storage, the `properties` object and tie-breaking in `nearest`. Nearest is the first vertex of least distance in insertion order.
- Randomness, `uuid.uuid4`, the goal-check probability and any claim about distributions. Draws and identifiers are inputs.
- Termination:
  - The full `search` loop in `rrt.py:83-95` may never end, and neither may `sample_free`'s `while True`.
  - The model covers seeding and one iteration of `search`'s inner loop.
  - `SampleFree` takes a finite list of draws and returns None when all of them are blocked.
- Only `trees[0]`: the list of trees and the tree-index argument are dropped, as the source only ever drives one tree.
- `print` calls in `get_path` and `check_solution`.
- `plotting.py`, `main.py` and the A* route search: visualisation, wiring and a separate tool.
- Search_Space with `Obs_list=None` is modelled as an empty obstacle list. An explicit `[]` instead goes through the bulk load from `obstacle_generator` at `search_space.py:32`; how rtree handles an empty stream there is not modelled.
- Planner.RRT.GetNewAndNear: requires a sample that is not already a vertex. The source would steer by a zero-length direction there and produce NaN coordinates. Those first reach the rtree `count` query at `rrt.py:127`; how the rtree library treats NaN is not part of this model.
- Planner.RRT.SearchIteration: requires the same of its sample as GetNewAndNear, for the same reason.
- Planner.RRT.GetPath: models the corrected re-homing (see Findings); the as-written re-homing is modelled separately. Planner.RRT.CheckSolution and Planner.RRT.SearchIteration call this corrected GetPath, so they terminate where the source, with a goal that is already a vertex, loops forever. When start equals goal, the source's `rrt.py:177` also runs before the early return at `rrt.py:180-181` and makes the root its own parent; the model leaves the root's `None` parent in place.
- Planner.RRT.constructor: `prc` is a required argument; the source's default `prc=0.01` (`rrt.py:63`) is not modelled.
- Planner.RRT.GetPath, Planner.RRT.CheckSolution and Planner.RRT.SearchIteration: all three require the tree invariant. The source always calls `get_path` after seeding; on an unseeded tree `get_nearest` raises.

## Findings

| source | as written | input that shows it | evidently intended | confidence | as-written member | corrected member |
|---|---|---|---|---|---|---|
| RRT_Search/rrt.py:176-185 | `get_path` sets `edges[x_goal] = get_nearest(x_goal)` unconditionally, then walks parent links until the parent is `x_init`. When the goal is already a vertex, its nearest vertex is itself, so the goal becomes its own parent and the walk never ends. | Bounds [0,10]×[0,10], start (0,0), goal (10,10), with a clamped extension that put a vertex at (10,10) (tree vertices (0,0), (10,10); edges (10,10)→(0,0)). `get_path` then loops forever, appending (10,10). | Re-home the goal only when it is not already a vertex; a goal that is a vertex already has its parent. The same write also runs when start equals goal, before the early return at line 180, turning the root's `None` parent into a self-link; the corrected member leaves the edges unchanged then. | not executed | Planner.GetPathAsWrittenDiverges | Planner.RRT.GetPath |

/**
 * `obstacle_generator`: the stream of `(id, box, payload)` triples the
 * search space bulk-loads into its obstacle index.
 */
module ObstacleStream {

  /** An obstacle identifier (a `uuid.uuid4()` draw, supplied by the caller). */
  type Uuid = nat

  /** One record of the rtree bulk-load stream: identifier, box vector, payload. */
  datatype IndexEntry = IndexEntry(id: Uuid, box: seq<real>, payload: seq<real>)

  /**
   * One triple per obstacle, in order, whose box and payload are both the
   * obstacle itself; `ids` are the identifiers drawn, one per obstacle.
   */
  function ObstacleGenerator(obstacles: seq<seq<real>>, ids: seq<Uuid>): (entries: seq<IndexEntry>)
    requires |ids| == |obstacles|
    ensures |entries| == |obstacles|
    ensures forall k :: 0 <= k < |obstacles| ==>
      entries[k].id == ids[k] && entries[k].box == obstacles[k] && entries[k].payload == obstacles[k]
  {
    if obstacles == [] then []
    else [IndexEntry(ids[0], obstacles[0], obstacles[0])] + ObstacleGenerator(obstacles[1..], ids[1..])
  }
}

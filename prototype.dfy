/**
 * The earlier copies of the distance and path queries, in the first bot and
 * in the script: the same search and descent as the `World` of the expansion
 * bot, over a view built inline from the terrain with the fixed obstacle set
 * MOUNTAIN and UNKNOWN_OBSTACLE.
 */
module Prototype {
  import opened Wrappers
  import opened Tiles
  import opened Grid
  import opened Distances
  import PathCharter
  import Colonizer

  /** The inline view: UNKNOWN_OBSTACLE for mountains and unknown obstacles, EMPTY for every other tile. */
  function TerrainView(terrain: seq<int>): (r: seq<int>)
    ensures |r| == |terrain| && IsView(r)
    ensures forall i :: 0 <= i < |r| ==> (r[i] == UNKNOWN_OBSTACLE <==> terrain[i] in {UNKNOWN_OBSTACLE, MOUNTAIN})
  {
    seq(|terrain|, i requires 0 <= i < |terrain| => if terrain[i] in {UNKNOWN_OBSTACLE, MOUNTAIN} then UNKNOWN_OBSTACLE else EMPTY)
  }

  /** The inline view is the default obstacle view of the later `World`. */
  lemma {:induction false} TerrainViewIsDefault(w: Colonizer.World)
    ensures TerrainView(w.terrain) == Colonizer.ObstacleView(w, Colonizer.DefaultObstacles(w))
  {
    var a, b := TerrainView(w.terrain), Colonizer.ObstacleView(w, Colonizer.DefaultObstacles(w));
    forall i | 0 <= i < |a|
      ensures a[i] == b[i]
    {
      Colonizer.DefaultView(w, i);
    }
  }

  /** `calculate_distances(reference_point)` of the earlier copies. */
  method CalculateDistances(g: Grid, terrain: seq<int>, ref: int) returns (d: seq<int>)
    requires g.width > 0 && |terrain| == g.Size() && InGrid(g, ref)
    ensures IsDistanceField(g, TerrainView(terrain), ref, d)
    ensures |d| == |terrain| && d[ref] == 0
    ensures forall c :: 0 <= c < |d| ==> (d[c] == UNKNOWN_OBSTACLE <==> c != ref && terrain[c] in {UNKNOWN_OBSTACLE, MOUNTAIN})
  {
    d := Bfs(g, TerrainView(terrain), ref);
  }

  /** `chart_path(start, dest)` of the earlier copies; None where they fail or run for ever. */
  method ChartPath(g: Grid, terrain: seq<int>, start: int, dest: int) returns (r: Option<seq<int>>, ghost d: seq<int>)
    requires g.width > 0 && |terrain| == g.Size() && InGrid(g, start) && InGrid(g, dest)
    ensures r.Some? ==> |r.value| > 0 && r.value[0] == start && r.value[|r.value| - 1] == dest
    ensures r.Some? ==> forall k :: 0 <= k < |r.value| - 1 ==> IsNeighbour(g, r.value[k], r.value[k + 1])
    ensures r.Some? ==> forall k :: 1 <= k < |r.value| ==>
      0 <= r.value[k] < |terrain| && (r.value[k] == dest || terrain[r.value[k]] !in {UNKNOWN_OBSTACLE, MOUNTAIN})
    ensures forall v :: IsWalk(g, TerrainView(terrain), dest, v) && v[0] == dest && v[|v| - 1] == start
              ==> r.Some? && |r.value| <= |v|
    ensures IsDistanceField(g, TerrainView(terrain), dest, d) && |d| == |terrain| && (r.Some? <==> PathCharter.Arrives(g, d, start))
    ensures r.Some? ==> PathCharter.Greedy(g, d, r.value) && forall k :: 1 <= k < |r.value| ==> d[r.value[k]] == |r.value| - 1 - k
    ensures r.Some? && d[start] >= 0 ==> |r.value| == d[start] + 1
  {
    r, d := PathCharter.ChartPath(g, TerrainView(terrain), start, dest);
  }
}

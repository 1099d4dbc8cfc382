/**
 * The `World` of the expansion bot: the board as the last game update left
 * it, the obstacle views built from its terrain, and the distance and path
 * queries of the bot over those views.
 */
module Colonizer {
  import opened Wrappers
  import opened Tiles
  import opened Grid
  import opened Distances
  import opened PathCharter

  /** The fields of a world that the bot reads. */
  datatype World = World(width: int, height: int, playerIndex: int, terrain: seq<int>, armies: seq<int>, generals: seq<int>)

  function Board(w: World): Grid
  {
    Grid(w.width, w.height)
  }

  /** A world after its first update: one terrain and one army value per tile of a grid with at least one column. */
  predicate Updated(w: World)
  {
    w.width > 0 && |w.terrain| == w.width * w.height && |w.armies| == |w.terrain|
  }

  /** `capital_location`: the tile of our own general. */
  function CapitalLocation(w: World): int
    requires 0 <= w.playerIndex < |w.generals|
  {
    w.generals[w.playerIndex]
  }

  /** `is_hostile_army`: a tile we do not own that holds armies. */
  predicate IsHostileArmy(w: World, loc: int)
    requires 0 <= loc < |w.terrain| && |w.armies| == |w.terrain|
  {
    w.terrain[loc] != w.playerIndex && w.armies[loc] > 0
  }

  /** `is_obstacle`: a mountain, or a city or mountain hidden in the fog. */
  predicate IsObstacle(w: World, loc: int)
    requires 0 <= loc < |w.terrain|
  {
    w.terrain[loc] == UNKNOWN_OBSTACLE || w.terrain[loc] == MOUNTAIN
  }

  /** The values of the default obstacle predicate on every tile. */
  function DefaultObstacles(w: World): (r: seq<bool>)
    ensures |r| == |w.terrain|
  {
    seq(|w.terrain|, i requires 0 <= i < |w.terrain| => IsObstacle(w, i))
  }

  /** The obstacle predicate of the planner: obstacles and hostile armies. */
  function PlannerObstacles(w: World): (r: seq<bool>)
    requires |w.armies| == |w.terrain|
    ensures |r| == |w.terrain|
  {
    seq(|w.terrain|, i requires 0 <= i < |w.terrain| => IsObstacle(w, i) || IsHostileArmy(w, i))
  }

  /**
   * `obstacle_view(obstacle_fn)`, with the values of `obstacle_fn` on the
   * tiles given as `blocked`: one entry per terrain tile, UNKNOWN_OBSTACLE
   * exactly where the predicate holds and EMPTY everywhere else.
   */
  function ObstacleView(w: World, blocked: seq<bool>): (r: seq<int>)
    requires |blocked| == |w.terrain|
    ensures |r| == |w.terrain| && IsView(r)
    ensures forall i :: 0 <= i < |r| ==> (r[i] == UNKNOWN_OBSTACLE <==> blocked[i])
  {
    seq(|w.terrain|, i requires 0 <= i < |w.terrain| => if blocked[i] then UNKNOWN_OBSTACLE else EMPTY)
  }

  /** With the default predicate a tile is blocked exactly when its terrain is MOUNTAIN or UNKNOWN_OBSTACLE. */
  lemma {:induction false} DefaultView(w: World, i: int)
    requires 0 <= i < |w.terrain|
    ensures ObstacleView(w, DefaultObstacles(w))[i] == UNKNOWN_OBSTACLE <==> w.terrain[i] in {MOUNTAIN, UNKNOWN_OBSTACLE}
    ensures ObstacleView(w, DefaultObstacles(w))[i] == EMPTY <==> w.terrain[i] !in {MOUNTAIN, UNKNOWN_OBSTACLE}
  {
    assert DefaultObstacles(w)[i] == IsObstacle(w, i);
  }

  /**
   * `calculate_distances(reference_point, obstacle_fn)`: the breadth-first
   * distance field over the obstacle view. The reference gets 0 and every
   * other tile the predicate blocks keeps UNKNOWN_OBSTACLE.
   */
  method CalculateDistances(w: World, ref: int, blocked: seq<bool>) returns (d: seq<int>)
    requires Updated(w) && InGrid(Board(w), ref) && |blocked| == |w.terrain|
    ensures IsDistanceField(Board(w), ObstacleView(w, blocked), ref, d)
    ensures |d| == |w.terrain| && d[ref] == 0
    ensures forall c :: 0 <= c < |d| ==> (d[c] == UNKNOWN_OBSTACLE <==> c != ref && blocked[c])
  {
    d := Bfs(Board(w), ObstacleView(w, blocked), ref);
  }

  /**
   * `chart_path(start, dest, obstacle_fn)`: a path from `start` to `dest`
   * between neighbouring tiles that enters no blocked tile except possibly
   * `dest`, and no longer than any walk joining the two; None where the
   * source fails or runs for ever.
   */
  method WorldChartPath(w: World, start: int, dest: int, blocked: seq<bool>) returns (r: Option<seq<int>>, ghost d: seq<int>)
    requires Updated(w) && InGrid(Board(w), start) && InGrid(Board(w), dest) && |blocked| == |w.terrain|
    ensures r.Some? ==> |r.value| > 0 && r.value[0] == start && r.value[|r.value| - 1] == dest
    ensures r.Some? ==> forall k :: 0 <= k < |r.value| - 1 ==> IsNeighbour(Board(w), r.value[k], r.value[k + 1])
    ensures r.Some? ==> forall k :: 1 <= k < |r.value| ==> 0 <= r.value[k] < |blocked| && (r.value[k] == dest || !blocked[r.value[k]])
    ensures forall v :: IsWalk(Board(w), ObstacleView(w, blocked), dest, v) && v[0] == dest && v[|v| - 1] == start
              ==> r.Some? && |r.value| <= |v|
    ensures IsDistanceField(Board(w), ObstacleView(w, blocked), dest, d) && |d| == |w.terrain| && (r.Some? <==> Arrives(Board(w), d, start))
    ensures r.Some? ==> Greedy(Board(w), d, r.value) && forall k :: 1 <= k < |r.value| ==> d[r.value[k]] == |r.value| - 1 - k
    ensures r.Some? && d[start] >= 0 ==> |r.value| == d[start] + 1
  {
    r, d := ChartPath(Board(w), ObstacleView(w, blocked), start, dest);
  }

  /** The coordinates of the tiles among the first `|terrain|` ones that `player` owns, in tile order. */
  function OwnedCoords(g: Grid, terrain: seq<int>, player: int): seq<(int, int)>
    requires g.width > 0
    decreases |terrain|
  {
    if terrain == [] then []
    else
      var i := |terrain| - 1;
      OwnedCoords(g, terrain[..i], player) + (if terrain[i] == player then [CoordToXY(g, i)] else [])
  }

  /** `land_owned`: the coordinates of every tile we own. */
  function LandOwned(w: World): seq<(int, int)>
    requires w.width > 0
  {
    OwnedCoords(Board(w), w.terrain, w.playerIndex)
  }

  /** A pair is listed exactly when it is a column and row of the grid whose tile `player` owns. */
  lemma {:induction false} OwnedCoordsExact(g: Grid, terrain: seq<int>, player: int, x: int, y: int)
    requires g.width > 0 && |terrain| <= g.Size()
    ensures (x, y) in OwnedCoords(g, terrain, player) <==>
      0 <= x < g.width && 0 <= y && XYToCoord(g, x, y) < |terrain| && terrain[XYToCoord(g, x, y)] == player
    decreases |terrain|
  {
    if terrain != [] {
      var i := |terrain| - 1;
      var t := terrain[..i];
      OwnedCoordsExact(g, t, player, x, y);
      RowInRange(g, i);
      if 0 <= x < g.width && XYToCoord(g, x, y) == i {
        CoordRoundTrip(g, x, y);
      }
      if (x, y) in OwnedCoords(g, t, player) {
        assert terrain[XYToCoord(g, x, y)] == t[XYToCoord(g, x, y)];
      }
      if 0 <= x < g.width && 0 <= y && XYToCoord(g, x, y) < i {
        assert terrain[XYToCoord(g, x, y)] == t[XYToCoord(g, x, y)];
      }
    }
  }

  /**
   * The pairs are listed in tile order, each tile at most once: the tiles
   * they name lie among the first `|terrain|` and strictly increase.
   */
  lemma {:induction false} OwnedCoordsOrdered(g: Grid, terrain: seq<int>, player: int)
    requires g.width > 0
    ensures forall k :: 0 <= k < |OwnedCoords(g, terrain, player)| ==>
      0 <= XYToCoord(g, OwnedCoords(g, terrain, player)[k].0, OwnedCoords(g, terrain, player)[k].1) < |terrain|
    ensures forall j, k :: 0 <= j < k < |OwnedCoords(g, terrain, player)| ==>
      XYToCoord(g, OwnedCoords(g, terrain, player)[j].0, OwnedCoords(g, terrain, player)[j].1)
      < XYToCoord(g, OwnedCoords(g, terrain, player)[k].0, OwnedCoords(g, terrain, player)[k].1)
    decreases |terrain|
  {
    if terrain != [] {
      var i := |terrain| - 1;
      var before := OwnedCoords(g, terrain[..i], player);
      var r := OwnedCoords(g, terrain, player);
      OwnedCoordsOrdered(g, terrain[..i], player);
      assert forall k :: 0 <= k < |before| ==> r[k] == before[k];
      if terrain[i] == player {
        assert r[|before|] == CoordToXY(g, i);
      }
    }
  }

  /** In an updated world, `land_owned` lists exactly the coordinates of the tiles we own. */
  lemma {:induction false} LandOwnedExact(w: World, x: int, y: int)
    requires Updated(w)
    ensures (x, y) in LandOwned(w) ==> 0 <= x < w.width && 0 <= y < w.height
    ensures 0 <= x < w.width && 0 <= y < w.height ==>
      InGrid(Board(w), XYToCoord(Board(w), x, y))
      && ((x, y) in LandOwned(w) <==> w.terrain[XYToCoord(Board(w), x, y)] == w.playerIndex)
  {
    var g := Board(w);
    OwnedCoordsExact(g, w.terrain, w.playerIndex, x, y);
    if 0 <= x < w.width {
      XYInGrid(g, x, y);
    }
  }
}

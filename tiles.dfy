/**
 * Terrain constants of the game protocol. A non-negative terrain value is the
 * index of the player owning the tile; the negative values are sentinels.
 */
module Tiles {
  const EMPTY: int := -1
  const MOUNTAIN: int := -2
  const UNKNOWN: int := -3
  /** Cities and mountains show up as this value in the fog of war. */
  const UNKNOWN_OBSTACLE: int := -4

  /** A terrain value the protocol can send: a player index or one of the four sentinels. */
  predicate IsTerrainValue(t: int)
  {
    t >= 0 || t == EMPTY || t == MOUNTAIN || t == UNKNOWN || t == UNKNOWN_OBSTACLE
  }
}

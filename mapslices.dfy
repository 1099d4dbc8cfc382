/**
 * The patched map array of a game update: two size terms (width, height),
 * then one army value per tile, then one terrain value per tile, the tiles in
 * row-major order with tile 0 the top-left corner.
 */
module MapSlices {
  import opened PySlices

  /** The per-tile layers cut out of the map. */
  datatype Layers = Layers(armies: seq<int>, terrain: seq<int>)

  /** `map[:2]`, the size header the client keeps from the first update. */
  function MapSize(flat: seq<int>): (r: seq<int>)
    ensures |r| == Min(2, |flat|)
    ensures forall k :: 0 <= k < |r| ==> r[k] == flat[k]
  {
    PySliceNonNegative(flat, 0, 2);
    PySlice(flat, 0, 2)
  }

  /**
   * The client's split: with `n` the product of the stored size, armies are
   * `map[2:2 + n]` and terrain is `map[2 + n:2 + n*2]`.
   */
  function SplitWithSize(flat: seq<int>, size: seq<int>): Layers
    requires |size| >= 2
  {
    var n := size[0] * size[1];
    Layers(PySlice(flat, 2, 2 + n), PySlice(flat, 2 + n, 2 + n * 2))
  }

  /**
   * The script's split, which reads width and height from the map itself on
   * every update: armies are `map[2:size + 2]`, terrain `map[size + 2:size + 2 + size]`.
   */
  function SplitFromHeader(flat: seq<int>): Layers
    requires |flat| >= 2
  {
    var size := flat[0] * flat[1];
    Layers(PySlice(flat, 2, size + 2), PySlice(flat, size + 2, size + 2 + size))
  }

  /** A map of `2 + 2*n` terms is the header, `n` armies and `n` terrain values. */
  lemma {:induction false} LayersRebuild(flat: seq<int>, n: nat)
    requires |flat| == 2 + 2 * n
    ensures |PySlice(flat, 2, 2 + n)| == n && |PySlice(flat, 2 + n, 2 + n * 2)| == n
    ensures flat[..2] + PySlice(flat, 2, 2 + n) + PySlice(flat, 2 + n, 2 + n * 2) == flat
  {
    PySliceInRange(flat, 2, 2 + n);
    PySliceInRange(flat, 2 + n, 2 + n * 2);
    SubIsSlice(flat, 2, 2 + n);
    SubIsSlice(flat, 2 + n, 2 + n * 2);
    assert flat == flat[..2] + flat[2..2 + n] + flat[2 + n..2 + n * 2];
  }

  /**
   * A map of `2 + 2*w*h` terms headed by `w` and `h` splits into two layers of
   * `w*h` tiles, and the header and the layers rebuild it exactly.
   */
  lemma {:induction false} SplitRoundTrip(flat: seq<int>, w: int, h: int)
    requires |flat| >= 2 && flat[0] == w && flat[1] == h && |flat| == 2 + 2 * (w * h)
    ensures MapSize(flat) == [w, h]
    ensures |SplitWithSize(flat, [w, h]).armies| == w * h
    ensures |SplitWithSize(flat, [w, h]).terrain| == w * h
    ensures [w, h] + SplitWithSize(flat, [w, h]).armies + SplitWithSize(flat, [w, h]).terrain == flat
  {
    LayersRebuild(flat, w * h);
    assert MapSize(flat) == flat[..2] == [w, h];
  }

  /** Both splits cut the same layers out of a map whose header is the stored size. */
  lemma {:induction false} SplitsAgree(flat: seq<int>)
    requires |flat| >= 2
    ensures SplitFromHeader(flat) == SplitWithSize(flat, MapSize(flat))
  {
    assert MapSize(flat)[0] == flat[0] && MapSize(flat)[1] == flat[1];
  }
}

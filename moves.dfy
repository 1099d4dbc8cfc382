/**
 * `possible_moves(state)`: the moves the planner may make next. They all
 * start at one tile, the tip of the last clear's path while that clear may
 * still move and the capital otherwise, and go to the neighbours it has in
 * the order right, up, left, down, skipping blocked tiles and, away from the
 * capital, the tiles of the current path and the capital itself.
 */
module Moves {
  import opened Wrappers
  import opened Tiles
  import opened Grid
  import opened Planner

  /** A state moves can be generated from: a last clear that, while it may still move, has walked at least one step. */
  predicate Playable(s: State)
  {
    |s.clears| > 0 && (|Last(s.clears).path| < Last(s.clears).moveCap ==> Last(s.clears).path != [])
  }

  /** Where the next move starts: the tip of the last clear's path while it may still move, else the capital. */
  function Origin(capital: int, s: State): int
    requires Playable(s)
  {
    var current := Last(s.clears);
    if |current.path| < current.moveCap then Last(current.path) else capital
  }

  /** A move the planner may make from `origin`. */
  predicate Legal(g: Grid, capital: int, s: State, origin: int, m: Move)
    requires g.width > 0 && |s.clears| > 0
  {
    m.origin == origin && InGrid(g, m.destination) && IsNeighbour(g, origin, m.destination)
    && 0 <= m.destination < |s.board| && s.board[m.destination] != UNKNOWN_OBSTACLE
    && (origin == capital || (m.destination !in Last(s.clears).path && m.destination != capital))
  }

  /** The move to the tile a translation gave, when the filter of `possible_moves` lets it through. */
  function MoveTo(capital: int, s: State, origin: int, destination: Option<int>): seq<Move>
    requires |s.clears| > 0
  {
    if destination.Some? && 0 <= destination.value < |s.board| && s.board[destination.value] != UNKNOWN_OBSTACLE
       && (origin == capital || (destination.value !in Last(s.clears).path && destination.value != capital))
    then [Move(origin, destination.value)]
    else []
  }

  /** The moves from `origin` along the translations `ts`, in order. */
  function MovesOf(g: Grid, capital: int, s: State, origin: int, ts: seq<Translation>): seq<Move>
    requires g.width > 0 && |s.clears| > 0
  {
    if ts == [] then []
    else MovesOf(g, capital, s, origin, ts[..|ts| - 1]) + MoveTo(capital, s, origin, Translate(g, Last(ts), origin))
  }

  /** `possible_moves(state)` as a function of the state. */
  function PossibleMovesOf(g: Grid, capital: int, s: State): seq<Move>
    requires g.width > 0 && Playable(s)
  {
    MovesOf(g, capital, s, Origin(capital, s), Translations())
  }

  /** `possible_moves(state)`, with the capital and the grid passed in. */
  method PossibleMoves(g: Grid, capital: int, s: State) returns (moves: seq<Move>)
    requires g.width > 0 && Playable(s) && |s.board| == g.Size() && InGrid(g, Origin(capital, s))
    ensures moves == PossibleMovesOf(g, capital, s)
  {
    var currentClear := s.clears[|s.clears| - 1];
    var origin := if |currentClear.path| < currentClear.moveCap then currentClear.path[|currentClear.path| - 1] else capital;
    moves := [];
    var ts := Translations();
    for k := 0 to |ts|
      invariant moves == MovesOf(g, capital, s, origin, ts[..k])
    {
      var destination := Translate(g, ts[k], origin);
      TranslateStays(g, ts[k], origin);
      if destination.Some? && s.board[destination.value] != UNKNOWN_OBSTACLE
         && (origin == capital || (destination.value !in currentClear.path && destination.value != capital)) {
        moves := moves + [Move(origin, destination.value)];
      }
      assert ts[..k + 1][..k] == ts[..k];
    }
    assert ts[..|ts|] == ts;
  }

  /** Every move along `ts` is legal, and there is at most one per translation. */
  lemma {:induction false} MovesOfSound(g: Grid, capital: int, s: State, origin: int, ts: seq<Translation>)
    requires g.width > 0 && |s.clears| > 0 && |s.board| == g.Size() && InGrid(g, origin)
    ensures |MovesOf(g, capital, s, origin, ts)| <= |ts|
    ensures forall k :: 0 <= k < |MovesOf(g, capital, s, origin, ts)| ==> Legal(g, capital, s, origin, MovesOf(g, capital, s, origin, ts)[k])
    decreases |ts|
  {
    if ts != [] {
      var ts' := ts[..|ts| - 1];
      MovesOfSound(g, capital, s, origin, ts');
      TranslateStays(g, Last(ts), origin);
      var front, back := MovesOf(g, capital, s, origin, ts'), MoveTo(capital, s, origin, Translate(g, Last(ts), origin));
      assert forall k :: 0 <= k < |front + back| ==> (front + back)[k] == if k < |front| then front[k] else back[k - |front|];
    }
  }

  /** A legal move to the tile translation `ts[j]` gives is among the moves along `ts`. */
  lemma {:induction false} MovesOfComplete(g: Grid, capital: int, s: State, origin: int, ts: seq<Translation>, j: int, m: Move)
    requires g.width > 0 && |s.clears| > 0 && 0 <= j < |ts|
    requires Legal(g, capital, s, origin, m) && Translate(g, ts[j], origin) == Some(m.destination)
    ensures m in MovesOf(g, capital, s, origin, ts)
    decreases |ts|
  {
    var ts' := ts[..|ts| - 1];
    if j < |ts| - 1 {
      assert ts'[j] == ts[j];
      MovesOfComplete(g, capital, s, origin, ts', j, m);
    }
  }

  /** The moves `possible_moves` returns are exactly the legal ones from the origin; there are at most four. */
  lemma {:induction false} PossibleMovesExact(g: Grid, capital: int, s: State, m: Move)
    requires g.width > 0 && Playable(s) && |s.board| == g.Size() && InGrid(g, Origin(capital, s))
    ensures |PossibleMovesOf(g, capital, s)| <= 4
    ensures m in PossibleMovesOf(g, capital, s) <==> Legal(g, capital, s, Origin(capital, s), m)
  {
    var origin := Origin(capital, s);
    MovesOfSound(g, capital, s, origin, Translations());
    if Legal(g, capital, s, origin, m) {
      var n := m.destination;
      if Right(g, origin) == Some(n) {
        MovesOfComplete(g, capital, s, origin, Translations(), 0, m);
      } else if Up(g, origin) == Some(n) {
        MovesOfComplete(g, capital, s, origin, Translations(), 1, m);
      } else if Left(g, origin) == Some(n) {
        MovesOfComplete(g, capital, s, origin, Translations(), 2, m);
      } else {
        MovesOfComplete(g, capital, s, origin, Translations(), 3, m);
      }
    }
  }
}

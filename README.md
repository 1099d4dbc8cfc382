# generals.io expansion bot: a Dafny model

This project models the computational core of a Python bot for the game
generals.io. It covers three pieces.

- **The delta patcher.** Each game update carries run-length diffs against the previous map and city arrays.
  `_patch` (and its copy `patch` in the script) rebuilds the next array from the previous one. The patched map is then
  cut into a size header, an armies layer and a terrain layer.
- **Grid queries.** The board is a row-major grid of `width * height` tiles.
  - `cardinal_translations` gives the right, up, left and down neighbour of a tile, clipping at the edges.
  - `obstacle_view` marks the blocked tiles.
  - `calculate_distances` is a FIFO breadth-first search from a reference tile.
  - `chart_path` walks greedily down that distance field, each time to the neighbour a stable sort by distance puts first.
  - The expansion bot's `World` has these with a pluggable obstacle predicate. The first bot and the script have copies
    with a fixed obstacle set.
- **The expansion planner.**
  - A planner state is a board plus a list of *clears*. A clear is one army walk out of the capital, with its starting
    `turn`, its `move_cap` (how many steps it may take), its `gain` (tiles it claims) and its `path`.
  - `possible_moves` extends the current clear from the tip of its path, or opens a new clear from the capital.
  - `get_next_state` applies a move. When the move lands on claimed land, it recomputes every clear, and that may
    prune the state.
  - `search_for_solution` is a best-first search with a visited set that collects *full solutions*: states whose
    last clear gains at least as many tiles as its turn.
  - `plan_optimal_moveset` lowers the land target from 24 until the search finds a solution. It returns the
    solution's clears in reverse order, each path prefixed with the capital.

Modules:
- Wrappers: `Option`.
- Tiles: the terrain constants.
- PySlices: Python's slicing `s[a:b]`, with negative bounds and clipping.
- Delta: the patcher.
- MapSlices: the map split.
- Grid: tiles, coordinates, neighbours.
- Distances: the breadth-first search over an obstacle view.
- PathCharter: the greedy descent.
- Colonizer: the expansion bot's `World`.
- Prototype: the copies in the first bot and the script.
- Planner: `get_next_state`.
- Moves: `possible_moves`.
- Search: `search_for_solution` and `plan_optimal_moveset`.

Where the source changes state step by step, the model does too: methods with `while`/`for` loops over `seq` locals,
each proved against a function (`Patched`, `IsDistanceField`, `NextState`, `Pass`, `PossibleMovesOf`, `Replay`).
Those functions carry lemmas stating what the source promises.

The three copies of the distance and path queries run the same algorithm. The two patch functions and the three sets
of neighbour lambdas (colonizer.py:30-35, bot.py:15-20, main.py:189-193) are the same up to names (`cursor` or `i`,
`self.map_width` or `map_width`). One Dafny member
models each of them, and the table cites every copy. The first bot and the script build their view inline from the terrain. `TerrainView` is
that inline view, and `Prototype.TerrainViewIsDefault` proves it equals the expansion bot's default obstacle view.

`get_next_state` marks a claimed tile with the index of the clear that claims it. The search's first states are made
while the initial clear is still clear 0, and `remove_initial_clear` then drops it without renumbering the board. So the
first move's tile holds 1 in a state with a single clear (`Search.StartMarkShifted`). Later moves write
`len(clears) - 1` of the trimmed list, so every other mark is the index of a clear of that list; only that one tile
is one too high. The planner compares marks only with EMPTY and UNKNOWN_OBSTACLE, so nothing it computes depends on this. The
model keeps the source's numbering, and that one tile is why `Search.Sound` bounds the marks by the number of clears
plus one.

## Model

| member | source | states |
|---|---|---|
| Delta.Patch | generalsio.py:229-250 | `_patch` walks the diff with a cursor; its output is exactly `Patched(prev, diff)`, for every diff whose mismatch counts are non-negative; `patch` at main.py:150-161 is the same loop |
| Delta.PatchFrom | generalsio.py:240-250 | what the loop produces from cursor `c` on, given the output so far: keep, add the literals, go on; the same loop as `patch` at main.py:152-161 |
| Delta.Patched | generalsio.py:229-250 | the array `_patch(prev, diff)` returns: the walk from cursor 0 with an empty output |
| Delta.PatchLoopStep | generalsio.py:241-249 | one turn of the loop: the cursor moves strictly forward (so the loop ends), and what the rest of the diff yields is unchanged; it is `MismatchStep` or `MatchOnlyStep` depending on the count after the cursor |
| Delta.MismatchStep | generalsio.py:243-248 | a matching count followed by a non-zero mismatch count keeps the run, appends the literals and moves the cursor past them, strictly forward, onto a well-formed rest |
| Delta.MatchOnlyStep | generalsio.py:243-245 | a matching count with no mismatch count after it, or a zero one, keeps the run and moves the cursor two on |
| Delta.KeepSamePositions | generalsio.py:243-244 | a matching run leaves the output so far intact and copies `prev` at the output's own positions, never past the end of `prev`, whatever its count |
| Delta.LiteralsExact | generalsio.py:246-248 | a mismatch run of `k` appends exactly the `k` diff elements after its count |
| Delta.DocExamples | generalsio.py:237-238 | `[1, 1, 3]` onto `[0, 0]` yields `[0, 3]`, and `[0, 1, 2, 1]` onto `[0, 0]` yields `[2, 0]` |
| Delta.EmptyDiff | generalsio.py:239-242 | an empty diff yields `[]` whatever the previous array |
| Delta.PatchLayout | generalsio.py:229-250 | patching an encoded list of runs does what the runs mean: keep, then add the literals, run by run |
| Delta.MatchRun | generalsio.py:243-244 | the maximal run of agreeing positions, an input a matching count can describe |
| Delta.MismatchRun | generalsio.py:246-248 | the maximal run of differing positions, an input a mismatch count can describe |
| Delta.ApplyRuns | generalsio.py:229-250 | the maximal runs of `next` against `prev` rebuild `next` |
| Delta.DiffRoundTrip | generalsio.py:229-250 | a diff encoder as partner: patching `Diff(prev, next)` onto `prev` yields `next`, for all arrays |
| MapSlices.MapSize | generalsio.py:184 | `map[:2]` keeps the first two terms, or fewer when the map is shorter |
| MapSlices.SplitWithSize | generalsio.py:190-194 | the client's cut: armies `map[2:2+n]`, terrain `map[2+n:2+2n]` with `n` the product of the stored size |
| MapSlices.SplitFromHeader | main.py:299-309 | the script's cut, with the size read from the map's own first two terms |
| MapSlices.LayersRebuild | generalsio.py:190-194 | a map of `2 + 2n` terms splits into `n` armies and `n` terrain values, which with the header rebuild it |
| MapSlices.SplitRoundTrip | generalsio.py:184-194 | a map of `2 + 2wh` terms headed by `w, h` has size `[w, h]`, layers of `w*h` tiles, and header plus layers rebuild it exactly |
| MapSlices.SplitsAgree | main.py:299-309 | the script's split, which reads the size from each map, cuts the same layers as the client's split with the stored size |
| Grid.CoordToXY | colonizer.py:90-91 | `coord_to_x_y(i)` is `(i % w, i // w)`: the column is in range, `i = y*w + x`, and a tile's row is in range |
| Grid.CoordRoundTrip | colonizer.py:90-91 | column and row give back the tile, and a tile of the grid when the row is in range |
| Grid.XYInGrid | colonizer.py:90-91 | a column and a row give a tile of the grid exactly when the row is one of the grid's |
| Grid.Right | colonizer.py:31 | `right`: None on the last column, else the next index |
| Grid.Left | colonizer.py:32 | `left`: None on the first column, else the previous index |
| Grid.Up | colonizer.py:33 | `up`: None on the first row, else one width back |
| Grid.Down | colonizer.py:34 | `down`: None past the index `w*(h-1)-1`, else one width on |
| Grid.Translations | colonizer.py:35 | the translation order right, up, left, down; the same at bot.py:20 and main.py:193 |
| Grid.Translate | colonizer.py:30-35 | a translation applied to a tile |
| Grid.RightCoords | colonizer.py:31 | `right` is None exactly on the last column; otherwise the tile one column right, same row |
| Grid.LeftCoords | colonizer.py:32 | `left` is None exactly on the first column; otherwise the tile one column left, same row |
| Grid.UpCoords | colonizer.py:33 | `up` is None exactly on the first row; otherwise the tile one row up, same column |
| Grid.DownCoords | colonizer.py:34 | `down` is None exactly on the last row; otherwise the tile one row down, same column |
| Grid.LastRow | colonizer.py:34 | the index test of `down` fires exactly on the last row |
| Grid.TranslateStays | colonizer.py:30-35 | every translation of a tile of the grid lands on a tile of the grid that neighbours it; the lambdas at bot.py:16-19 and main.py:189-192 are the same |
| Grid.NeighbourAdjacent | colonizer.py:30-35 | neighbours differ by one in exactly one coordinate |
| Grid.AdjacentIsNeighbour | colonizer.py:30-35 | tiles that differ by one in one coordinate are neighbours: the four lambdas miss none |
| Grid.NeighbourSymmetric | colonizer.py:30-35 | the neighbour relation is symmetric on the grid |
| Grid.RouteGrows | colonizer.py:186 | a route of neighbouring tiles stays one when cut short or extended by a neighbour of its last tile |
| Distances.Visit | colonizer.py:64-68 | one pass over the four neighbours of the popped tile: every neighbour is settled, the invariant is kept, and the EMPTY count drops by what the queue grows |
| Distances.Bfs | colonizer.py:59-69 | the result is a distance field: the reference at 0, no other tile at 0, exactly the blocked tiles at -4, every positive tile with a neighbour one nearer, every open neighbour of a reached tile reached at most one further |
| Distances.WalkBound | colonizer.py:59-69 | no walk from the reference reaches a tile in fewer steps than its distance |
| Distances.DescentWalk | colonizer.py:59-69 | every reached tile ends a walk from the reference of exactly its distance plus one tiles: distances are shortest hop counts |
| Distances.UnreachedIffNoWalk | colonizer.py:59-69 | a tile stays EMPTY exactly when it is open and no walk from the reference reaches it |
| PathCharter.CandidatesSound | colonizer.py:80 | at most four candidate steps, each an unblocked neighbour |
| PathCharter.CandidateMember | colonizer.py:80 | every unblocked neighbour is a candidate |
| PathCharter.Candidates | colonizer.py:80 | the candidate list: the translations' results that exist and are not -4, in translation order |
| PathCharter.FirstMin | colonizer.py:81-82 | a stable sort followed by `[0]` picks a position of the list |
| PathCharter.FirstMinLeast | colonizer.py:81-82 | that position has the least key, and every earlier one a greater key (the stable-sort tie rule) |
| PathCharter.Step | colonizer.py:80-82 | the greedy step: the first candidate after a stable sort by distance; None where the list is empty; a tile of the board otherwise |
| PathCharter.StepSound | colonizer.py:80-82 | the greedy step is None exactly when there is no candidate, else an unblocked neighbour no candidate beats |
| PathCharter.GreedySteps | colonizer.py:77-84 | along a greedy path each tile is the greedy step from the one before |
| PathCharter.DescendStep | colonizer.py:77-84 | from a tile at positive distance the greedy step goes to a neighbour exactly one nearer |
| PathCharter.Descend | colonizer.py:75-85 | the descent stops exactly when the source's would; its path starts at `start`, ends at `dest`, is greedy, steps between neighbours, and has length `dist[start] + 1` |
| PathCharter.ChartPath | colonizer.py:71-85 | `chart_path`: from `start` to `dest`, neighbouring steps, no blocked tile after `start`, and whenever a walk joins them the path exists and is no longer; the path exists exactly when the descent over the distance field arrives, every step is the greedy one, the tiles after the first count down the field to 0 at `dest`, and the length is `dist[start] + 1` |
| Colonizer.ObstacleView | colonizer.py:51-54 | one entry per terrain tile, -4 exactly where the predicate holds and -1 elsewhere |
| Colonizer.CapitalLocation | colonizer.py:42-43 | `capital_location()`: the tile of our own general |
| Colonizer.DefaultView | colonizer.py:48-54 | with the default predicate a tile is -4 exactly when its terrain is MOUNTAIN or UNKNOWN_OBSTACLE, and -1 otherwise |
| Colonizer.DefaultObstacles | colonizer.py:52-53 | the default predicate has one value per tile |
| Colonizer.PlannerObstacles | colonizer.py:250 | the planner's predicate (obstacle or hostile army) has one value per tile |
| Colonizer.IsHostileArmy | colonizer.py:45-46 | `is_hostile_army`: a tile we do not own that holds armies |
| Colonizer.IsObstacle | colonizer.py:48-49 | `is_obstacle`: terrain MOUNTAIN or UNKNOWN_OBSTACLE |
| Colonizer.CalculateDistances | colonizer.py:56-69 | a distance field over the obstacle view: the reference at 0, exactly the other blocked tiles at -4 |
| Colonizer.WorldChartPath | colonizer.py:71-85 | `chart_path` with an obstacle predicate: endpoints, neighbouring steps, no blocked tile except possibly `dest`, no longer than any walk; greedy over the distance field of the obstacle view, counting down to `dest`, of length `dist[start] + 1`, and present exactly when the descent arrives |
| Colonizer.OwnedCoords | colonizer.py:87-88 | the comprehension of `land_owned` over a prefix of the terrain, in tile order |
| Colonizer.LandOwned | colonizer.py:87-88 | `land_owned`: the coordinates of our tiles |
| Colonizer.OwnedCoordsExact | colonizer.py:87-88 | a pair is listed exactly when it is a column and row of a tile with the player's index |
| Colonizer.OwnedCoordsOrdered | colonizer.py:87-88 | the listed pairs name tiles of the terrain in strictly increasing order, so each owned tile appears once, in tile order |
| Colonizer.LandOwnedExact | colonizer.py:87-91 | `land_owned` lists exactly the coordinates, within the grid, of the tiles we own |
| Prototype.TerrainView | bot.py:39 | the inline view: -4 exactly for mountains and unknown obstacles, -1 elsewhere |
| Prototype.TerrainViewIsDefault | bot.py:39 | the inline view equals the `World`'s default obstacle view |
| Prototype.CalculateDistances | bot.py:35-49 | the first bot's search, and the script's at main.py:195-209: a distance field with the reference at 0 and exactly the other mountain or unknown-obstacle tiles at -4 |
| Prototype.ChartPath | bot.py:51-66 | the first bot's path, and the script's at main.py:172-187: endpoints, neighbouring steps, no mountain or unknown obstacle except possibly `dest`, no longer than any walk; greedy over the distance field, of length `dist[start] + 1`, present exactly when the descent arrives |
| Planner.SegmentEnds | colonizer.py:192-193 | one segment end per clear |
| Planner.Later | colonizer.py:201 | `full_path[segment_ends[i]:]`: the steps the clears after `i` walk |
| Planner.Opened | colonizer.py:182-185 | the clear a capital move appends: `turn - gain`, `2*gain` moves, no gain, empty path |
| Planner.Extended | colonizer.py:181-189 | the clears after the bookkeeping of a move: possibly a new clear, then `dest` appended to the last path and one more gain |
| Planner.Flatten | colonizer.py:191 | `full_path`: the paths one after another |
| Planner.NewLand | colonizer.py:201 | `new_land`: the steps of a path not walked later, in order |
| Planner.Rewrite | colonizer.py:195-202 | one clear as the pass rewrites it from the rewritten clear before it |
| Planner.PassFrom | colonizer.py:195-205 | the `enumerate(clears)` loop from clear `i` on: rewrite each clear from the rewritten one before it, stop with None at the first dead one |
| Planner.Dead | colonizer.py:203 | the test that makes the pass return None |
| Planner.Pass | colonizer.py:190-205 | the recompute pass over all clears, None once a clear is dead |
| Planner.NextState | colonizer.py:176-207 | `get_next_state` on a copy of the state: bookkeeping, mark, and the pass when the tile was not EMPTY |
| Planner.FlattenConcat | colonizer.py:191 | the flattened path of joined clear lists is the join of their flattened paths |
| Planner.LaterSteps | colonizer.py:191-193 | `full_path[segment_ends[i]:]` is exactly the steps of the clears after `i` |
| Planner.NewLandExact | colonizer.py:201 | the new land of a clear is at most its path, and a tile is in it exactly when the path has it and no later clear does |
| Planner.Recompute | colonizer.py:190-205 | the recompute loop returns exactly `Pass(clears)` |
| Planner.GetNextState | colonizer.py:176-207 | `get_next_state` returns exactly `NextState(capital, state, move)` |
| Planner.CapitalMoveOpens | colonizer.py:181-189 | a capital move onto EMPTY land appends the clear `(turn - gain, 2*gain, 1, [dest])` and marks the tile with its index, nothing else |
| Planner.TipMoveExtends | colonizer.py:186-189 | any other move onto EMPTY land appends `dest` to the last path, adds one to its gain, and marks the tile, nothing else |
| Planner.NextStateMarks | colonizer.py:188 | if every board mark is -4, -1 or below the number of clears plus `k`, the next state has at least as many clears and keeps that bound; with `k = 0` marks are indices of clears, and the search's states (see `Search.StartMarkShifted`) need `k = 1` |
| Planner.RewriteLater | colonizer.py:196-199 | a clear after the first starts `prev.gain` turns later, moves `2*prev.gain`, and its path is cut to at most that |
| Planner.RewriteGain | colonizer.py:201-202 | its gain is the number of its steps no later clear covers |
| Planner.ChainAt | colonizer.py:195-205 | each rewritten clear is rewritten from the one before and is not dead |
| Planner.PassLive | colonizer.py:195-207 | a surviving pass rewrites every clear, none of them dead |
| Planner.PassDies | colonizer.py:203-205 | a pass that returns None meets a clear with gain 0 that is not last or has used all its moves |
| Planner.PassIff | colonizer.py:195-207 | the pass survives exactly when a full chain of non-dead rewrites exists |
| Planner.ChainPrefix | colonizer.py:203-205 | no chain of non-dead rewrites runs past the first dead clear |
| Planner.PassTurns | colonizer.py:196-198 | after the pass every clear after the first starts when the one before has made its gain, strictly later in the countdown, and moves twice that gain |
| Planner.PassPaths | colonizer.py:199 | the first path is unchanged, later paths are their prefixes of length `min(move_cap, len)` |
| Planner.PassGains | colonizer.py:201-205 | every gain is the new land of its clear; every clear but the last gains, and the last gains or still has moves |
| Moves.PossibleMoves | colonizer.py:209-226 | `possible_moves` returns exactly `PossibleMovesOf(state)` |
| Moves.MovesOfSound | colonizer.py:218-224 | every generated move is legal, at most one per translation |
| Moves.MovesOfComplete | colonizer.py:218-224 | every legal move along a translation is generated |
| Moves.PossibleMovesExact | colonizer.py:217-224 | at most four moves; a move is among them exactly when it starts at the tip (or the capital once the clear is out of moves), goes to a neighbour that is not -4, and away from the capital avoids the current path and the capital |
| Moves.Origin | colonizer.py:217 | where the next move starts: the tip of the path while the clear may move, else the capital |
| Moves.Legal | colonizer.py:220-224 | a move from the origin to a neighbour on the board that is not -4 and, away from the capital, avoids the current path and the capital |
| Moves.MoveTo | colonizer.py:220-224 | the filter on one translation's result: the move when it exists and passes, else nothing |
| Moves.MovesOf | colonizer.py:218-224 | the append loop over the given translations, in order |
| Moves.PossibleMovesOf | colonizer.py:209-226 | the moves along the four translations, in order, that pass the filter |
| Search.SoundOrigin | colonizer.py:217 | in a sound state moves start on the grid, at the capital exactly when the last clear has used its moves |
| Search.ExtendedSound | colonizer.py:181-189 | the bookkeeping of a legal move keeps the clears chained and leaves a last clear that has gained and can be extended |
| Search.ExtendedWalks | colonizer.py:181-189 | and keeps every clear a route of neighbouring tiles from the capital |
| Search.PassSound | colonizer.py:195-205 | the recompute pass keeps the clears chained and the last clear extendable |
| Search.PassWalks | colonizer.py:199 | cutting paths short keeps every clear a route from the capital |
| Search.NextStateSound | colonizer.py:176-207 | `get_next_state` on a legal move of a sound state gives a sound state or None |
| Search.InitialState | colonizer.py:250-251 | the initial state: the planner's board and the clear `(25, 0, 25 - final_clear, [])` |
| Search.WithoutInitialClear | colonizer.py:252 | `remove_initial_clear`: the same board, the clears after the first |
| Search.IsFullSolution | colonizer.py:257 | `isFullSoln`: the last clear gains at least its turn |
| Search.Start | colonizer.py:253 | `remove_initial_clear(get_next_state(initial_state, move))` for a legal first move, None otherwise |
| Search.StartSound | colonizer.py:250-253 | a capital move from the initial clear `(25, 0, 25 - final_clear, [])`, with the initial clear removed, gives the sound state with the single clear `(final_clear, 2*(25 - final_clear), 1, [dest])` |
| Search.StartMarkShifted | colonizer.py:252-253 | removing the initial clear leaves the first move's tile marked 1 in a state with one clear, so the marks of the search's first states are not all below the number of clears |
| Search.PlayExtend | colonizer.py:269-270 | playing one more move advances the state reached |
| Search.ReplayExtend | colonizer.py:269-270 | a trail replayed one move further gives what that move makes of its state |
| Search.AdvanceStep | colonizer.py:267-270 | a legal move of a kept state extends its trail to the next state, which is sound when it exists |
| Search.PlaySound | colonizer.py:267-270 | legal moves played from a sound state lead only to sound states |
| Search.ReplaySound | colonizer.py:253-270 | every state a trail of moves reaches from the initial state is sound |
| Search.ReachableSound | colonizer.py:248-282 | every state the search can reach is sound |
| Search.InitialQueue | colonizer.py:250-255 | the first queue: for the `k`-th possible first move, in order, the `k`-th state is the opening it makes (board with the tile marked 1, the single clear `(final_clear, 2*(25 - final_clear), 1, [dest])`), reached by that one move; the visited set is exactly the clears logged |
| Search.SeedStep | colonizer.py:253-255 | queueing one more opening extends the log and the visited set in step |
| Search.Keys | colonizer.py:229-230 | one priority key per queued state |
| Search.Pop | colonizer.py:265 | `heappop` takes a position of the queue |
| Search.PopMost | colonizer.py:229-230 | the popped state has the most moves of all queued states |
| Search.FrontierClears | colonizer.py:265 | every queued state has clears, so the pop is defined |
| Search.LoggedAt | colonizer.py:265-270 | the popped entry of the log is reached by its trail |
| Search.FrontierPop | colonizer.py:265 | the popped state is its entry of the log, and the rest of the queue still points into the log and is visited |
| Search.SolvedPush | colonizer.py:275-276 | appending a reached full solution keeps every kept solution reached and full |
| Search.FrontierPush | colonizer.py:280-282 | a pushed state becomes the next entry of the log and its clears are visited |
| Search.LoggedPush | colonizer.py:280-282 | logging a reached state that is not a full solution keeps the log: every entry reached by its trail, the first ones openings, the later ones not full |
| Search.PushFresh | colonizer.py:280-281 | pushing only unvisited clears keeps every pushed value after the first queue unique |
| Search.SearchForSolution | colonizer.py:248-291 | a returned state is sound, a full solution, and reached from the initial state by `get_next_state`; the log of queued states starts with one opening per possible first move, every entry is sound and reachable with its own clears, the later ones are not full solutions, and no `clears` value is queued twice after the first queue |
| Search.PlanOf | colonizer.py:304-306 | one plan entry per clear |
| Search.ChainedTurns | colonizer.py:183 | chained clears start on strictly decreasing turns |
| Search.PlanExecutable | colonizer.py:303-306 | the plan of a sound state has one entry per clear, strictly increasing turns, each path starting at the capital and a route of neighbouring tiles |
| Search.PlannerView | colonizer.py:250 | the planner's board is a view, one entry per tile |
| Search.PlanOptimalMoveset | colonizer.py:293-306 | a returned plan is the reversed solution, capital first, for a target at most 24, of a full solution the search reaches; its turns increase strictly and every path starts at the capital and steps between neighbours |

## Left out

- The socket client, its callbacks and the event loop of the script are network I/O.
- Rendering is terminal output: `print_map`, the scoreboard, `print_as_grid`, `print_path` and the display module.
- Progress prints, timing and `save_solutions` are wall-clock and file I/O, and so are the logging prints of the
  script's `chart_path` (main.py:173, main.py:175).
- The command line and the JSON user config are left out.
- The reactive `traverse` heuristic and the post-expansion branch of `handle_game_update` issue `attack` emits.
- `World.update` only overwrites fields. A `World` here is a value holding the fields the bot reads.
- Search.Pop: the priority is `-move_cap` without the random tiebreak. Ties go to the earliest queued state, so the
  order among equal priorities is one fixed choice rather than the source's random one.
- Search.SearchForSolution: the heap loop runs at most `fuel` iterations. The source's loop has no evident bound, so
  only partial correctness is stated: a returned state is a reachable full solution.
- Search.PlanOptimalMoveset: the outer loop runs at most `fuel` iterations. The source's `while True` lowers
  `final_clear` without a lower bound.
- The dead and repeat counters feed only a progress print.
- Search.SearchForSolution: `visited` is a set of `clears` values. The source keys a dict by `str(clears)`, which is
  injective on these records, so it is the same test.
- `get_next_state` copies its input before changing it. Values are immutable here, so the input state is unchanged
  by construction.
- Planner.NextState, Planner.GetNextState: require the destination to be a tile of the board. Every move
  `possible_moves` generates is one.
- PathCharter.ChartPath: returns None where the source raises IndexError (no candidate step) or walks for ever among
  unreached tiles. `Descend` states exactly when that happens.
- Colonizer.CalculateDistances, Colonizer.WorldChartPath: `obstacle_fn` is given by its values on the tiles, as a
  `seq<bool>`.
- Delta.Patch: `WellFormed` excludes negative mismatch counts. On those the source's cursor can move backwards: the diff
  `[0, -1]` gives `old[:-1]`, and `[0, -2]` makes the loop revisit the same count for ever. The server sends only
  non-negative counts.
- Search.SearchForSolution: the promise that no `clears` value is queued twice is stated over a ghost log of the pushes.
  Under `fuel`, nothing forces the search to push or pop any state.
- Search.PlanOptimalMoveset: requires the capital to be a tile of the grid, as the server's `generals` list provides.

/**
 * `search_for_solution(final_clear)` and `plan_optimal_moveset()`: a
 * best-first search over planner states, most moves first, that keeps the
 * states which claim enough land in time, and an outer loop that lowers the
 * land target until the search finds one.
 */
module Search {
  import opened Wrappers
  import opened Tiles
  import opened Grid
  import opened Distances
  import opened PathCharter
  import opened Planner
  import opened Moves
  import Colonizer

  /** Every clear after the first starts when the one before it has made its gain, strictly later in the countdown. */
  predicate Chained(cs: seq<Clear>)
  {
    forall j :: 0 < j < |cs| ==> StartsAfter(cs, j)
  }

  /**
   * The clear the search extends: a path of at least one cell of the grid,
   * away from the capital, no longer than its moves, and a gain that is
   * positive unless the clear may still move.
   */
  predicate Extendable(g: Grid, capital: int, c: Clear)
  {
    c.path != [] && (forall k :: 0 <= k < |c.path| ==> InGrid(g, c.path[k])) && capital !in c.path
    && 0 <= c.gain && |c.path| <= c.moveCap && (c.gain > 0 || |c.path| < c.moveCap)
  }

  /** Every clear walks a route of neighbouring tiles from the capital. */
  predicate Walks(g: Grid, capital: int, cs: seq<Clear>)
    requires g.width > 0
  {
    forall j :: 0 <= j < |cs| ==> Route(g, [capital] + cs[j].path)
  }

  /** Every clear has a gain of at least zero and walks no more steps than its moves. */
  predicate Segments(cs: seq<Clear>)
  {
    forall j :: 0 <= j < |cs| ==> 0 <= cs[j].gain && |cs[j].path| <= cs[j].moveCap
  }

  /**
   * The states the search keeps: one board value per cell, every one an
   * obstacle, unclaimed or a mark of at most the number of clears (the first
   * move's tile keeps the mark 1 once the initial clear is dropped), chained
   * clears within their moves walking from the capital, an extendable last
   * clear.
   */
  predicate Sound(g: Grid, capital: int, s: State)
  {
    g.width > 0 && |s.board| == g.Size() && Marks(s.board, |s.clears| + 1) && |s.clears| > 0
    && Chained(s.clears) && Segments(s.clears) && Walks(g, capital, s.clears)
    && Extendable(g, capital, Last(s.clears))
  }

  /** Moves of a sound state start on the grid. */
  lemma {:induction false} SoundOrigin(g: Grid, capital: int, s: State)
    requires Sound(g, capital, s) && InGrid(g, capital)
    ensures Playable(s) && InGrid(g, Origin(capital, s))
    ensures Origin(capital, s) == capital <==> |Last(s.clears).path| >= Last(s.clears).moveCap
  {
    var p := Last(s.clears).path;
    assert p[|p| - 1] in p;
  }

  /** The bookkeeping of a legal move keeps every clear walking from the capital. */
  lemma {:induction false} ExtendedWalks(g: Grid, capital: int, s: State, m: Move)
    requires Sound(g, capital, s) && InGrid(g, capital) && Legal(g, capital, s, Origin(capital, s), m)
    ensures Walks(g, capital, Extended(capital, s.clears, m))
  {
    SoundOrigin(g, capital, s);
    var cs, n, c := Extended(capital, s.clears, m), |s.clears|, Last(s.clears);
    if m.origin == capital {
      var o := Opened(c);
      var o' := Clear(o.turn, o.moveCap, o.gain + 1, o.path + [m.destination]);
      assert Last(s.clears + [o]) == o;
      assert (s.clears + [o])[n := o'] == s.clears + [o'];
      assert cs == s.clears + [o'];
      assert [capital] + o'.path == [capital, m.destination];
      forall j | 0 <= j < |cs|
        ensures Route(g, [capital] + cs[j].path)
      {
        if j < n {
          assert cs[j] == s.clears[j];
        }
      }
    } else {
      var q := [capital] + c.path;
      assert Route(g, q);
      assert q[|q| - 1] == m.origin;
      RouteGrows(g, q, |q|, m.destination);
      assert [capital] + (c.path + [m.destination]) == q + [m.destination];
      forall j | 0 <= j < |cs|
        ensures Route(g, [capital] + cs[j].path)
      {
        if j < n - 1 {
          assert cs[j] == s.clears[j];
        }
      }
    }
  }

  /** The bookkeeping of a legal move keeps the clears chained and leaves an extendable last clear that has gained. */
  lemma {:induction false} ExtendedSound(g: Grid, capital: int, s: State, m: Move)
    requires Sound(g, capital, s) && InGrid(g, capital) && Legal(g, capital, s, Origin(capital, s), m)
    ensures Chained(Extended(capital, s.clears, m)) && Segments(Extended(capital, s.clears, m))
    ensures Extendable(g, capital, Last(Extended(capital, s.clears, m))) && Last(Extended(capital, s.clears, m)).gain > 0
  {
    SoundOrigin(g, capital, s);
    var cs, n, c := Extended(capital, s.clears, m), |s.clears|, Last(s.clears);
    NeighbourIsOther(g, m.origin, m.destination);
    if m.origin == capital {
      var o := Opened(c);
      assert Last(s.clears + [o]) == o;
      var o' := Clear(o.turn, o.moveCap, o.gain + 1, o.path + [m.destination]);
      assert Last(s.clears + [o]) == o;
      assert (s.clears + [o])[n := o'] == s.clears + [o'];
      assert cs == s.clears + [o'];
      forall j | 0 < j < |cs|
        ensures StartsAfter(cs, j)
      {
        if j < n {
          assert StartsAfter(s.clears, j);
        }
      }
      forall j | 0 <= j < |cs|
        ensures 0 <= cs[j].gain && |cs[j].path| <= cs[j].moveCap
      {
        if j < n {
          assert cs[j] == s.clears[j];
        }
      }
    } else {
      assert cs == s.clears[n - 1 := Clear(c.turn, c.moveCap, c.gain + 1, c.path + [m.destination])];
      forall j | 0 < j < |cs|
        ensures StartsAfter(cs, j)
      {
        assert StartsAfter(s.clears, j);
      }
      forall j | 0 <= j < |cs|
        ensures 0 <= cs[j].gain && |cs[j].path| <= cs[j].moveCap
      {
        if j < n - 1 {
          assert cs[j] == s.clears[j];
        }
      }
      assert forall k :: 0 <= k < |Last(cs).path| ==> Last(cs).path[k] == if k < |c.path| then c.path[k] else m.destination;
    }
  }

  /** The recomputation keeps the clears chained and leaves an extendable last clear. */
  lemma {:induction false} PassSound(g: Grid, capital: int, cs: seq<Clear>, r: seq<Clear>)
    requires |cs| > 0 && Pass(cs) == Some(r) && Extendable(g, capital, Last(cs)) && Segments(cs)
    ensures |r| > 0 && Chained(r) && Segments(r) && Extendable(g, capital, Last(r))
  {
    PassTurns(cs, r);
    PassPaths(cs, r);
    PassGains(cs, r);
    assert 0 <= cs[0].gain;
    var l := |r| - 1;
    if l > 0 {
      var p := r[l].path;
      assert p == cs[l].path[..|p|];
      forall k | 0 <= k < |p|
        ensures InGrid(g, p[k]) && p[k] != capital
      {
        assert p[k] == cs[l].path[k];
        assert cs[l].path[k] in cs[l].path;
      }
    }
  }

  /** The recomputation cuts paths short, so every clear still walks from the capital. */
  lemma {:induction false} PassWalks(g: Grid, capital: int, cs: seq<Clear>, r: seq<Clear>)
    requires g.width > 0 && |cs| > 0 && Pass(cs) == Some(r) && Walks(g, capital, cs)
    ensures Walks(g, capital, r)
  {
    PassPaths(cs, r);
    forall j | 0 <= j < |r|
      ensures Route(g, [capital] + r[j].path)
    {
      var q := [capital] + cs[j].path;
      assert Route(g, q);
      if j > 0 {
        RouteGrows(g, q, |r[j].path| + 1, capital);
        assert q[..|r[j].path| + 1] == [capital] + r[j].path;
      }
    }
  }

  /** `get_next_state` on a legal move of a sound state gives a sound state or None. */
  lemma {:induction false} NextStateSound(g: Grid, capital: int, s: State, m: Move)
    requires Sound(g, capital, s) && InGrid(g, capital) && Legal(g, capital, s, Origin(capital, s), m)
    ensures NextState(capital, s, m).Some? ==> Sound(g, capital, NextState(capital, s, m).value)
  {
    ExtendedSound(g, capital, s, m);
    ExtendedWalks(g, capital, s, m);
    NextStateMarks(capital, s, m, 1);
    var cs := Extended(capital, s.clears, m);
    if s.board[m.destination] != EMPTY && Pass(cs).Some? {
      PassSound(g, capital, cs, Pass(cs).value);
      PassWalks(g, capital, cs, Pass(cs).value);
    }
  }

  /** `{'turn': 25, 'move_cap': 0, 'gain': 25 - final_clear, 'path': []}` on the planner's board. */
  function InitialState(board: seq<int>, finalClear: int): State
  {
    State(board, [Clear(25, 0, 25 - finalClear, [])])
  }

  /** `remove_initial_clear`. */
  function WithoutInitialClear(s: State): State
  {
    State(s.board, if s.clears == [] then [] else s.clears[1..])
  }

  /** `isFullSoln`: the last clear has gained at least as many tiles as turns it started before the end. */
  predicate IsFullSolution(s: State)
    requires |s.clears| > 0
  {
    Last(s.clears).gain >= Last(s.clears).turn
  }

  /** The first states of the search: a move from the capital, the initial clear removed. */
  ghost function Start(g: Grid, capital: int, board: seq<int>, finalClear: int, m: Move): Option<State>
  {
    var init := InitialState(board, finalClear);
    if g.width > 0 && Legal(g, capital, init, capital, m) then
      var n := NextState(capital, init, m);
      if n.None? then None else Some(WithoutInitialClear(n.value))
    else None
  }

  /** One step of the search: a legal move from a sound state and what `get_next_state` makes of it. */
  ghost function Advance(g: Grid, capital: int, s: State, m: Move): Option<State>
  {
    if Sound(g, capital, s) && Legal(g, capital, s, Origin(capital, s), m) then NextState(capital, s, m) else None
  }

  /** The state the moves `ms` lead to from `s`, one step after the other. */
  ghost function Play(g: Grid, capital: int, s: State, ms: seq<Move>): Option<State>
    decreases |ms|
  {
    if ms == [] then Some(s)
    else
      var t := Play(g, capital, s, ms[..|ms| - 1]);
      if t.None? then None else Advance(g, capital, t.value, Last(ms))
  }

  /** The state a trail of moves leads to from the initial state: its first move starts the search, the others advance it. */
  ghost function Replay(g: Grid, capital: int, board: seq<int>, finalClear: int, trail: seq<Move>): Option<State>
  {
    if trail == [] then None
    else
      var s0 := Start(g, capital, board, finalClear, trail[0]);
      if s0.None? then None else Play(g, capital, s0.value, trail[1..])
  }

  /** A state the search can reach from the initial state. */
  ghost predicate Reachable(g: Grid, capital: int, board: seq<int>, finalClear: int, s: State)
  {
    exists trail :: Replay(g, capital, board, finalClear, trail) == Some(s)
  }

  /** Moves extended by one more lead where that move advances their state. */
  lemma {:induction false} PlayExtend(g: Grid, capital: int, s: State, ms: seq<Move>, m: Move)
    ensures Play(g, capital, s, ms + [m]) == if Play(g, capital, s, ms).None? then None else Advance(g, capital, Play(g, capital, s, ms).value, m)
  {
    var t := ms + [m];
    assert t[..|t| - 1] == ms;
    assert Last(t) == m;
  }

  /** A trail extended by one move leads where that move advances its state. */
  lemma {:induction false} ReplayExtend(g: Grid, capital: int, board: seq<int>, finalClear: int, trail: seq<Move>, s: State, m: Move)
    requires Replay(g, capital, board, finalClear, trail) == Some(s)
    ensures Replay(g, capital, board, finalClear, trail + [m]) == Advance(g, capital, s, m)
  {
    var t := trail + [m];
    var s0 := Start(g, capital, board, finalClear, trail[0]);
    assert t[0] == trail[0];
    assert t[1..] == trail[1..] + [m];
    assert Replay(g, capital, board, finalClear, t) == Play(g, capital, s0.value, trail[1..] + [m]);
    PlayExtend(g, capital, s0.value, trail[1..], m);
  }

  /** A move from the capital onto an open neighbour starts the search with a single clear of one step. */
  lemma {:induction false} StartSound(g: Grid, capital: int, board: seq<int>, finalClear: int, m: Move)
    requires g.width > 0 && |board| == g.Size() && IsView(board) && InGrid(g, capital) && finalClear <= 24
    requires Legal(g, capital, InitialState(board, finalClear), capital, m)
    ensures NextState(capital, InitialState(board, finalClear), m).Some?
    ensures Start(g, capital, board, finalClear, m) == Some(WithoutInitialClear(NextState(capital, InitialState(board, finalClear), m).value))
    ensures WithoutInitialClear(NextState(capital, InitialState(board, finalClear), m).value)
      == State(board[m.destination := 1], [Clear(finalClear, 2 * (25 - finalClear), 1, [m.destination])])
    ensures Sound(g, capital, WithoutInitialClear(NextState(capital, InitialState(board, finalClear), m).value))
  {
    var init := InitialState(board, finalClear);
    CapitalMoveOpens(capital, init, m);
    NeighbourIsOther(g, capital, m.destination);
    var c := Clear(finalClear, 2 * (25 - finalClear), 1, [m.destination]);
    assert [init.clears[0], c][1..] == [c];
    assert [capital] + c.path == [capital, m.destination];
  }

  /**
   * Dropping the initial clear does not renumber the board: the first move's
   * tile keeps the mark 1 written while the initial clear was clear 0, one
   * more than the index of the only clear left.
   */
  lemma {:induction false} StartMarkShifted(g: Grid, capital: int, board: seq<int>, finalClear: int, m: Move)
    requires g.width > 0 && |board| == g.Size() && IsView(board) && InGrid(g, capital) && finalClear <= 24
    requires Legal(g, capital, InitialState(board, finalClear), capital, m)
    ensures Start(g, capital, board, finalClear, m).Some?
    ensures Start(g, capital, board, finalClear, m).value.board[m.destination] == |Start(g, capital, board, finalClear, m).value.clears| == 1
    ensures !Marks(Start(g, capital, board, finalClear, m).value.board, |Start(g, capital, board, finalClear, m).value.clears|)
  {
    StartSound(g, capital, board, finalClear, m);
  }

  /** Advancing a sound state by a legal move replays the trail one move further, to a sound state or to None. */
  lemma {:induction false} AdvanceStep(g: Grid, capital: int, board: seq<int>, finalClear: int, trail: seq<Move>, s: State, m: Move)
    requires InGrid(g, capital) && Replay(g, capital, board, finalClear, trail) == Some(s) && Sound(g, capital, s)
    requires Legal(g, capital, s, Origin(capital, s), m)
    ensures Replay(g, capital, board, finalClear, trail + [m]) == NextState(capital, s, m)
    ensures NextState(capital, s, m).Some? ==> Sound(g, capital, NextState(capital, s, m).value)
  {
    ReplayExtend(g, capital, board, finalClear, trail, s, m);
    NextStateSound(g, capital, s, m);
  }

  /** Playing legal moves from a sound state only ever leads to sound states. */
  lemma {:induction false} PlaySound(g: Grid, capital: int, s: State, ms: seq<Move>)
    requires Sound(g, capital, s) && InGrid(g, capital)
    ensures Play(g, capital, s, ms).Some? ==> Sound(g, capital, Play(g, capital, s, ms).value)
    decreases |ms|
  {
    if ms != [] {
      var t := Play(g, capital, s, ms[..|ms| - 1]);
      PlaySound(g, capital, s, ms[..|ms| - 1]);
      if t.Some? && Sound(g, capital, t.value) && Legal(g, capital, t.value, Origin(capital, t.value), Last(ms)) {
        NextStateSound(g, capital, t.value, Last(ms));
      }
    }
  }

  /** A trail of moves from the initial state only ever leads to a sound state. */
  lemma {:induction false} ReplaySound(g: Grid, capital: int, board: seq<int>, finalClear: int, trail: seq<Move>)
    requires g.width > 0 && |board| == g.Size() && IsView(board) && InGrid(g, capital) && finalClear <= 24
    ensures Replay(g, capital, board, finalClear, trail).Some? ==> Sound(g, capital, Replay(g, capital, board, finalClear, trail).value)
  {
    if trail != [] && Legal(g, capital, InitialState(board, finalClear), capital, trail[0]) {
      StartSound(g, capital, board, finalClear, trail[0]);
      PlaySound(g, capital, Start(g, capital, board, finalClear, trail[0]).value, trail[1..]);
    }
  }

  /** Every state the search can reach is sound. */
  lemma {:induction false} ReachableSound(g: Grid, capital: int, board: seq<int>, finalClear: int, s: State)
    requires g.width > 0 && |board| == g.Size() && IsView(board) && InGrid(g, capital) && finalClear <= 24
    requires Reachable(g, capital, board, finalClear, s)
    ensures Sound(g, capital, s)
  {
    var trail :| Replay(g, capital, board, finalClear, trail) == Some(s);
    ReplaySound(g, capital, board, finalClear, trail);
  }

  /** A state the search keeps: reached by `trail`. */
  ghost predicate Kept(g: Grid, capital: int, board: seq<int>, finalClear: int, trail: seq<Move>, s: State)
  {
    Replay(g, capital, board, finalClear, trail) == Some(s)
  }

  /**
   * The log of the queue: `queued[k]` is the `k`-th state put on it, reached
   * by `qtrails[k]`, and `pushed[k]` its clears; the first ones are the states
   * of the first moves `firsts`, any later one is not a full solution.
   */
  ghost predicate Logged(g: Grid, capital: int, board: seq<int>, finalClear: int,
                         queued: seq<State>, qtrails: seq<seq<Move>>, pushed: seq<seq<Clear>>, firsts: seq<Move>)
  {
    |queued| == |qtrails| == |pushed| && |firsts| <= |pushed|
    && (forall k :: 0 <= k < |pushed| ==>
          Kept(g, capital, board, finalClear, qtrails[k], queued[k]) && pushed[k] == queued[k].clears && |queued[k].clears| > 0)
    && (forall k :: 0 <= k < |firsts| ==> Opening(g, capital, board, finalClear, firsts[k], queued[k]))
    && (forall k :: |firsts| <= k < |pushed| ==> !IsFullSolution(queued[k]))
  }

  /** Logging a state that is put on the queue after the first ones. */
  lemma {:induction false} LoggedPush(g: Grid, capital: int, board: seq<int>, finalClear: int,
                                      queued: seq<State>, qtrails: seq<seq<Move>>, pushed: seq<seq<Clear>>, firsts: seq<Move>,
                                      trail: seq<Move>, s: State)
    requires Logged(g, capital, board, finalClear, queued, qtrails, pushed, firsts)
    requires Kept(g, capital, board, finalClear, trail, s) && |s.clears| > 0 && !IsFullSolution(s)
    ensures Logged(g, capital, board, finalClear, queued + [s], qtrails + [trail], pushed + [s.clears], firsts)
  {
  }

  /** The queue: state `k` on it is entry `qidx[k]` of the log `queued`, and its clears were visited. */
  ghost predicate Frontier(queue: seq<State>, qidx: seq<int>, visited: set<seq<Clear>>, queued: seq<State>)
  {
    |qidx| == |queue|
    && forall k :: 0 <= k < |queue| ==> 0 <= qidx[k] < |queued| && queue[k] == queued[qidx[k]] && queue[k].clears in visited
  }

  /** The full solutions found so far, each reached by the trail beside it. */
  ghost predicate Solved(g: Grid, capital: int, board: seq<int>, finalClear: int, solutions: seq<State>, strails: seq<seq<Move>>)
  {
    |strails| == |solutions|
    && forall k :: 0 <= k < |solutions| ==>
         Kept(g, capital, board, finalClear, strails[k], solutions[k]) && |solutions[k].clears| > 0 && IsFullSolution(solutions[k])
  }

  /** Duplicates among the pushed clears only occur among the first `n` pushes. */
  ghost predicate PushedOnce(pushed: seq<seq<Clear>>, n: int)
  {
    forall i, j :: 0 <= i < j < |pushed| && pushed[i] == pushed[j] ==> j < n
  }

  /** `s` is the state the first move `m` starts the search in: the initial clear dropped, a single clear of one step to the destination. */
  ghost predicate Opening(g: Grid, capital: int, board: seq<int>, finalClear: int, m: Move, s: State)
  {
    Start(g, capital, board, finalClear, m) == Some(s)
    && s == State(board[m.destination := 1], [Clear(finalClear, 2 * (25 - finalClear), 1, [m.destination])])
  }

  /** The queue after the first moves `moves`: one opening state per move, in order, logged and visited. */
  ghost predicate Seeded(g: Grid, capital: int, board: seq<int>, finalClear: int, moves: seq<Move>,
                         queue: seq<State>, trails: seq<seq<Move>>, visited: set<seq<Clear>>, pushed: seq<seq<Clear>>)
  {
    Logged(g, capital, board, finalClear, queue, trails, pushed, moves) && |queue| == |moves|
    && (forall c :: c in visited <==> c in pushed)
  }

  /** Queueing the state of one more first move. */
  lemma {:induction false} SeedStep(g: Grid, capital: int, board: seq<int>, finalClear: int, moves: seq<Move>, k: int,
                                    queue: seq<State>, trails: seq<seq<Move>>, visited: set<seq<Clear>>, pushed: seq<seq<Clear>>, s: State)
    requires 0 <= k < |moves| && Seeded(g, capital, board, finalClear, moves[..k], queue, trails, visited, pushed)
    requires Opening(g, capital, board, finalClear, moves[k], s)
    ensures Seeded(g, capital, board, finalClear, moves[..k + 1], queue + [s], trails + [[moves[k]]], visited + {s.clears}, pushed + [s.clears])
  {
    var ms := moves[..k + 1];
    assert forall i :: 0 <= i < k ==> ms[i] == moves[..k][i];
    assert [moves[k]][1..] == [];
    assert Replay(g, capital, board, finalClear, [moves[k]]) == Some(s);
  }

  /**
   * The queue built from the moves of the initial state: one state per
   * possible first move, in order, each the single clear that move opens,
   * reached by that move; and the clears visited so far.
   */
  method InitialQueue(g: Grid, capital: int, board: seq<int>, finalClear: int)
    returns (queue: seq<State>, ghost trails: seq<seq<Move>>, visited: set<seq<Clear>>, ghost pushed: seq<seq<Clear>>)
    requires g.width > 0 && |board| == g.Size() && IsView(board) && InGrid(g, capital) && finalClear <= 24
    ensures Logged(g, capital, board, finalClear, queue, trails, pushed, PossibleMovesOf(g, capital, InitialState(board, finalClear)))
    ensures (forall c :: c in visited <==> c in pushed)
    ensures |queue| == |pushed| == |PossibleMovesOf(g, capital, InitialState(board, finalClear))|
    ensures forall k :: 0 <= k < |queue| ==>
      Opening(g, capital, board, finalClear, PossibleMovesOf(g, capital, InitialState(board, finalClear))[k], queue[k])
      && pushed[k] == queue[k].clears
  {
    var initialState := InitialState(board, finalClear);
    var moves := PossibleMoves(g, capital, initialState);
    queue, trails, visited, pushed := [], [], {}, [];
    for k := 0 to |moves|
      invariant Seeded(g, capital, board, finalClear, moves[..k], queue, trails, visited, pushed)
    {
      PossibleMovesExact(g, capital, initialState, moves[k]);
      StartSound(g, capital, board, finalClear, moves[k]);
      var next := GetNextState(capital, initialState, moves[k]);
      var s := WithoutInitialClear(next.value);
      SeedStep(g, capital, board, finalClear, moves, k, queue, trails, visited, pushed, s);
      queue, trails := queue + [s], trails + [[moves[k]]];
      visited, pushed := visited + {s.clears}, pushed + [s.clears];
    }
    assert moves[..|moves|] == moves;
  }

  /** The keys `scored_state` orders the queue by, without the random tiebreak: minus the moves of the last clear. */
  function Keys(queue: seq<State>): (r: seq<int>)
    requires forall k :: 0 <= k < |queue| ==> |queue[k].clears| > 0
    ensures |r| == |queue|
  {
    seq(|queue|, k requires 0 <= k < |queue| => -Last(queue[k].clears).moveCap)
  }

  function Indices(n: nat): (r: seq<int>)
    ensures |r| == n && forall i :: 0 <= i < n ==> r[i] == i
  {
    seq(n, i => i)
  }

  /** `heappop`: the first queued state whose last clear has the most moves. */
  function Pop(queue: seq<State>): (k: nat)
    requires |queue| > 0 && forall k :: 0 <= k < |queue| ==> |queue[k].clears| > 0
    ensures k < |queue|
  {
    FirstMin(Keys(queue), Indices(|queue|))
  }

  /** The popped state has the most moves of all queued states. */
  lemma {:induction false} PopMost(queue: seq<State>)
    requires |queue| > 0 && forall k :: 0 <= k < |queue| ==> |queue[k].clears| > 0
    ensures forall k :: 0 <= k < |queue| ==> Last(queue[k].clears).moveCap <= Last(queue[Pop(queue)].clears).moveCap
  {
    var ks, ix := Keys(queue), Indices(|queue|);
    assert forall i :: 0 <= i < |queue| ==> ks[i] == -Last(queue[i].clears).moveCap;
    FirstMinLeast(ks, ix);
    var p := Pop(queue);
    assert ix[p] == p;
    forall i | 0 <= i < |queue|
      ensures Last(queue[i].clears).moveCap <= Last(queue[p].clears).moveCap
    {
      assert ix[i] == i && ks[p] <= ks[ix[i]];
    }
  }

  /** Every queued state has clears, so the pop is defined. */
  lemma {:induction false} FrontierClears(g: Grid, capital: int, board: seq<int>, finalClear: int,
                                          queue: seq<State>, qidx: seq<int>, visited: set<seq<Clear>>,
                                          queued: seq<State>, qtrails: seq<seq<Move>>, pushed: seq<seq<Clear>>, firsts: seq<Move>)
    requires Frontier(queue, qidx, visited, queued) && Logged(g, capital, board, finalClear, queued, qtrails, pushed, firsts)
    ensures forall k :: 0 <= k < |queue| ==> |queue[k].clears| > 0
  {
    forall k | 0 <= k < |queue|
      ensures |queue[k].clears| > 0
    {
      assert queue[k] == queued[qidx[k]];
    }
  }

  /** Entry `i` of the log is reached by its trail. */
  lemma {:induction false} LoggedAt(g: Grid, capital: int, board: seq<int>, finalClear: int,
                                    queued: seq<State>, qtrails: seq<seq<Move>>, pushed: seq<seq<Clear>>, firsts: seq<Move>, i: int)
    requires Logged(g, capital, board, finalClear, queued, qtrails, pushed, firsts) && 0 <= i < |queued|
    ensures Kept(g, capital, board, finalClear, qtrails[i], queued[i])
  {
  }

  /** Taking state `k` off the queue. */
  lemma {:induction false} FrontierPop(queue: seq<State>, qidx: seq<int>, visited: set<seq<Clear>>, queued: seq<State>, k: int)
    requires Frontier(queue, qidx, visited, queued) && 0 <= k < |queue|
    ensures 0 <= qidx[k] < |queued| && queue[k] == queued[qidx[k]]
    ensures Frontier(queue[..k] + queue[k + 1..], qidx[..k] + qidx[k + 1..], visited, queued)
  {
    var q, x := queue[..k] + queue[k + 1..], qidx[..k] + qidx[k + 1..];
    forall i | 0 <= i < |q|
      ensures 0 <= x[i] < |queued| && q[i] == queued[x[i]] && q[i].clears in visited
    {
      var i' := if i < k then i else i + 1;
      assert q[i] == queue[i'] && x[i] == qidx[i'];
    }
  }

  /** Keeping a full solution reached by `trail`. */
  lemma {:induction false} SolvedPush(g: Grid, capital: int, board: seq<int>, finalClear: int,
                                      solutions: seq<State>, strails: seq<seq<Move>>, trail: seq<Move>, s: State)
    requires Solved(g, capital, board, finalClear, solutions, strails)
    requires Kept(g, capital, board, finalClear, trail, s) && |s.clears| > 0 && IsFullSolution(s)
    ensures Solved(g, capital, board, finalClear, solutions + [s], strails + [trail])
  {
  }

  /** Queueing a state as the next entry of the log and visiting its clears. */
  lemma {:induction false} FrontierPush(queue: seq<State>, qidx: seq<int>, visited: set<seq<Clear>>, queued: seq<State>, s: State)
    requires Frontier(queue, qidx, visited, queued)
    ensures Frontier(queue + [s], qidx + [|queued|], visited + {s.clears}, queued + [s])
  {
  }

  /** Pushing clears not visited yet keeps every pushed value after the first `n` pushes unique. */
  lemma {:induction false} PushFresh(pushed: seq<seq<Clear>>, n: int, visited: set<seq<Clear>>, c: seq<Clear>)
    requires PushedOnce(pushed, n) && (forall x :: x in visited <==> x in pushed) && c !in visited
    ensures PushedOnce(pushed + [c], n) && (forall x :: x in visited + {c} <==> x in pushed + [c])
  {
    var p := pushed + [c];
    assert forall i :: 0 <= i < |pushed| ==> pushed[i] != c;
    forall i, j | 0 <= i < j < |p| && p[i] == p[j]
      ensures j < n
    {
      assert p[i] == pushed[i];
      if j < |pushed| {
        assert p[j] == pushed[j];
      }
    }
  }

  /**
   * `search_for_solution(final_clear)`, with at most `fuel` states taken off
   * the queue: the first full solution found, a state the search reaches from
   * the initial state. `queued` logs the states put on the queue, in order,
   * and `pushed` their clears: first one state per possible first move, then
   * only sound, reachable states that are not full solutions, and after the
   * first states no clears are queued twice.
   */
  method SearchForSolution(g: Grid, capital: int, board: seq<int>, finalClear: int, fuel: nat)
    returns (r: Option<State>, ghost pushed: seq<seq<Clear>>, ghost queued: seq<State>)
    requires g.width > 0 && |board| == g.Size() && IsView(board) && InGrid(g, capital) && finalClear <= 24
    ensures r.Some? ==> Sound(g, capital, r.value) && IsFullSolution(r.value) && Reachable(g, capital, board, finalClear, r.value)
    ensures |queued| == |pushed| >= |PossibleMovesOf(g, capital, InitialState(board, finalClear))|
    ensures forall k :: 0 <= k < |PossibleMovesOf(g, capital, InitialState(board, finalClear))| ==>
      Opening(g, capital, board, finalClear, PossibleMovesOf(g, capital, InitialState(board, finalClear))[k], queued[k])
    ensures forall k :: 0 <= k < |pushed| ==>
      pushed[k] == queued[k].clears && Sound(g, capital, queued[k]) && Reachable(g, capital, board, finalClear, queued[k])
      && (k >= |PossibleMovesOf(g, capital, InitialState(board, finalClear))| ==> !IsFullSolution(queued[k]))
    ensures PushedOnce(pushed, |PossibleMovesOf(g, capital, InitialState(board, finalClear))|)
  {
    var queue, visited;
    ghost var trails;
    queue, trails, visited, pushed := InitialQueue(g, capital, board, finalClear);
    ghost var firsts := PossibleMovesOf(g, capital, InitialState(board, finalClear));
    ghost var n := |pushed|;
    queued := queue;
    ghost var qtrails, qidx := trails, Indices(|queue|);
    var fullSolutions: seq<State> := [];
    ghost var strails: seq<seq<Move>> := [];
    var steps := fuel;
    while |queue| > 0 && steps > 0
      invariant Frontier(queue, qidx, visited, queued) && Solved(g, capital, board, finalClear, fullSolutions, strails)
      invariant (forall c :: c in visited <==> c in pushed) && PushedOnce(pushed, n)
      invariant Logged(g, capital, board, finalClear, queued, qtrails, pushed, firsts)
      decreases steps
    {
      steps := steps - 1;
      FrontierClears(g, capital, board, finalClear, queue, qidx, visited, queued, qtrails, pushed, firsts);
      var k := Pop(queue);
      var currentState := queue[k];
      FrontierPop(queue, qidx, visited, queued, k);
      LoggedAt(g, capital, board, finalClear, queued, qtrails, pushed, firsts, qidx[k]);
      ghost var trail := qtrails[qidx[k]];
      queue, qidx := queue[..k] + queue[k + 1..], qidx[..k] + qidx[k + 1..];
      ReplaySound(g, capital, board, finalClear, trail);
      SoundOrigin(g, capital, currentState);
      var possibleNextMoves := PossibleMoves(g, capital, currentState);
      for j := 0 to |possibleNextMoves|
        invariant Frontier(queue, qidx, visited, queued) && Solved(g, capital, board, finalClear, fullSolutions, strails)
        invariant (forall c :: c in visited <==> c in pushed) && PushedOnce(pushed, n)
        invariant Logged(g, capital, board, finalClear, queued, qtrails, pushed, firsts)
      {
        var move := possibleNextMoves[j];
        PossibleMovesExact(g, capital, currentState, move);
        AdvanceStep(g, capital, board, finalClear, trail, currentState, move);
        var nextState := GetNextState(capital, currentState, move);
        if nextState.Some? {
          if IsFullSolution(nextState.value) {
            SolvedPush(g, capital, board, finalClear, fullSolutions, strails, trail + [move], nextState.value);
            fullSolutions, strails := fullSolutions + [nextState.value], strails + [trail + [move]];
            if |fullSolutions| > 1000 {
              queue, qidx := [], [];
            }
          } else if nextState.value.clears !in visited {
            FrontierPush(queue, qidx, visited, queued, nextState.value);
            PushFresh(pushed, n, visited, nextState.value.clears);
            LoggedPush(g, capital, board, finalClear, queued, qtrails, pushed, firsts, trail + [move], nextState.value);
            queue, qidx := queue + [nextState.value], qidx + [|queued|];
            visited, pushed := visited + {nextState.value.clears}, pushed + [nextState.value.clears];
            queued, qtrails := queued + [nextState.value], qtrails + [trail + [move]];
          }
        }
      }
    }
    forall k | 0 <= k < |pushed|
      ensures Sound(g, capital, queued[k]) && Reachable(g, capital, board, finalClear, queued[k])
    {
      ReplaySound(g, capital, board, finalClear, qtrails[k]);
      assert Replay(g, capital, board, finalClear, qtrails[k]) == Some(queued[k]);
    }
    if |fullSolutions| > 0 {
      ReplaySound(g, capital, board, finalClear, strails[0]);
      r := Some(fullSolutions[0]);
    } else {
      r := None;
    }
  }

  /** One entry of the expansion plan: the turn a clear starts on and the tiles it walks, from the capital. */
  datatype Planned = Planned(turn: int, path: seq<int>)

  /** The plan of a solution: its clears in reverse order, each path preceded by the capital. */
  function PlanOf(capital: int, clears: seq<Clear>): (r: seq<Planned>)
    ensures |r| == |clears|
  {
    seq(|clears|, k requires 0 <= k < |clears| => Planned(clears[|clears| - 1 - k].turn, [capital] + clears[|clears| - 1 - k].path))
  }

  /** Chained clears start on strictly decreasing turns. */
  lemma {:induction false} ChainedTurns(cs: seq<Clear>)
    requires Chained(cs)
    ensures forall i, j :: 0 <= i < j < |cs| ==> cs[j].turn < cs[i].turn
    decreases |cs|
  {
    if |cs| > 1 {
      var l := |cs| - 1;
      var p := cs[..l];
      forall j | 0 < j < |p|
        ensures StartsAfter(p, j)
      {
        assert StartsAfter(cs, j);
        assert p[j] == cs[j] && p[j - 1] == cs[j - 1];
      }
      ChainedTurns(p);
      assert StartsAfter(cs, l);
      forall i, j | 0 <= i < j < |cs|
        ensures cs[j].turn < cs[i].turn
      {
        if j < l {
          assert p[i] == cs[i] && p[j] == cs[j];
        } else if i < l - 1 {
          assert p[i] == cs[i] && p[l - 1] == cs[l - 1];
        }
      }
    }
  }

  /**
   * The plan of a sound state can be carried out as the bot does: one entry
   * per clear, on strictly increasing turns, each a route of neighbouring
   * tiles from the capital.
   */
  lemma {:induction false} PlanExecutable(g: Grid, capital: int, s: State)
    requires Sound(g, capital, s)
    ensures |PlanOf(capital, s.clears)| == |s.clears| > 0
    ensures forall j, k :: 0 <= j < k < |s.clears| ==> PlanOf(capital, s.clears)[j].turn < PlanOf(capital, s.clears)[k].turn
    ensures forall k :: 0 <= k < |s.clears| ==>
      PlanOf(capital, s.clears)[k].path[0] == capital && Route(g, PlanOf(capital, s.clears)[k].path)
  {
    var n := |s.clears|;
    ChainedTurns(s.clears);
    assert forall k :: 0 <= k < n ==> PlanOf(capital, s.clears)[k] == Planned(s.clears[n - 1 - k].turn, [capital] + s.clears[n - 1 - k].path);
  }

  /** The board the planner starts from: the view of the world with hostile armies as obstacles. */
  function PlannerView(w: Colonizer.World): (r: seq<int>)
    requires |w.armies| == |w.terrain|
    ensures |r| == |w.terrain| && IsView(r)
  {
    Colonizer.ObstacleView(w, Colonizer.PlannerObstacles(w))
  }

  /**
   * `plan_optimal_moveset()`: searches, with `searchFuel` states per search,
   * for the most land that can be claimed, lowering the target from 24 at
   * most `fuel` times, and returns the plan of the first solution found:
   * one that the search reaches, full for its target, and executable.
   */
  method PlanOptimalMoveset(w: Colonizer.World, fuel: nat, searchFuel: nat) returns (r: Option<seq<Planned>>)
    requires Colonizer.Updated(w) && 0 <= w.playerIndex < |w.generals|
    requires InGrid(Colonizer.Board(w), Colonizer.CapitalLocation(w))
    ensures r.Some? ==> exists finalClear, s ::
      (finalClear <= 24 && Sound(Colonizer.Board(w), Colonizer.CapitalLocation(w), s) && IsFullSolution(s)
       && Reachable(Colonizer.Board(w), Colonizer.CapitalLocation(w), PlannerView(w), finalClear, s)
       && r.value == PlanOf(Colonizer.CapitalLocation(w), s.clears))
    ensures r.Some? ==> |r.value| > 0
    ensures r.Some? ==> forall j, k :: 0 <= j < k < |r.value| ==> r.value[j].turn < r.value[k].turn
    ensures r.Some? ==> forall k :: 0 <= k < |r.value| ==>
      r.value[k].path[0] == Colonizer.CapitalLocation(w) && Route(Colonizer.Board(w), r.value[k].path)
  {
    var g, board := Colonizer.Board(w), PlannerView(w);
    var finalClear := 24;
    var solution: Option<State> := None;
    ghost var pushed, queued;
    var rounds := fuel;
    while rounds > 0
      invariant finalClear <= 24 && solution.None?
      decreases rounds
    {
      rounds := rounds - 1;
      solution, pushed, queued := SearchForSolution(g, Colonizer.CapitalLocation(w), board, finalClear, searchFuel);
      if solution.Some? {
        break;
      }
      finalClear := finalClear - 1;
    }
    if solution.None? {
      return None;
    }
    var capital := Colonizer.CapitalLocation(w);
    PlanExecutable(g, capital, solution.value);
    r := Some(PlanOf(capital, solution.value.clears));
  }
}

/**
 * States of the expansion planner and `get_next_state`. A state is a board,
 * marking every tile UNKNOWN_OBSTACLE, EMPTY or the index of the clear that
 * claimed it, and the list of clears: on its `turn` a clear walks the
 * capital's armies along `path`, at most `moveCap` steps, and claims `gain`
 * tiles. A move either extends the last clear from the tip of its path or,
 * from the capital, opens a new clear; a move onto a tile already claimed
 * makes a pass over all clears recompute their schedule and gains.
 */
module Planner {
  import opened Wrappers
  import opened Tiles
  import opened PySlices

  datatype Clear = Clear(turn: int, moveCap: int, gain: int, path: seq<int>)

  datatype State = State(board: seq<int>, clears: seq<Clear>)

  datatype Move = Move(origin: int, destination: int)

  function Last<T>(s: seq<T>): T
    requires |s| > 0
  {
    s[|s| - 1]
  }

  /** The clear a move from the capital opens after `prev`: it starts when `prev` has gained its tiles and moves twice that many steps. */
  function Opened(prev: Clear): Clear
  {
    Clear(prev.turn - prev.gain, prev.gain * 2, 0, [])
  }

  /** The clears after the bookkeeping of a move, before any recompute pass. */
  function Extended(capital: int, clears: seq<Clear>, m: Move): seq<Clear>
    requires |clears| > 0
  {
    var cs := if m.origin == capital then clears + [Opened(Last(clears))] else clears;
    var c := Last(cs);
    cs[|cs| - 1 := Clear(c.turn, c.moveCap, c.gain + 1, c.path + [m.destination])]
  }

  /** `full_path`: the paths of the clears one after the other. */
  function Flatten(cs: seq<Clear>): seq<int>
  {
    if cs == [] then [] else Flatten(cs[..|cs| - 1]) + Last(cs).path
  }

  /** `segment_ends`: where the steps of each clear end in `full_path`. */
  function SegmentEnds(cs: seq<Clear>): (r: seq<int>)
    ensures |r| == |cs|
  {
    seq(|cs|, i requires 0 <= i < |cs| => |Flatten(cs[..i + 1])|)
  }

  /** The steps the clears after clear `i` walk. */
  function Later(cs: seq<Clear>, i: int): seq<int>
    requires 0 <= i < |cs|
  {
    Flatten(cs[i + 1..])
  }

  /** `new_land`: the steps of `path` that `later` does not walk, in order. */
  function NewLand(path: seq<int>, later: seq<int>): seq<int>
  {
    if path == [] then []
    else NewLand(path[..|path| - 1], later) + (if Last(path) in later then [] else [Last(path)])
  }

  /**
   * Clear `i` of `cs` as the pass rewrites it, `prev` being the rewritten
   * clear before it. Every clear after the first starts when `prev` has made
   * its gain, moves twice that gain and has its path cut to that many steps;
   * every clear's gain becomes the number of its steps no later clear walks.
   */
  function Rewrite(cs: seq<Clear>, i: int, prev: Clear): Clear
    requires 0 <= i < |cs|
  {
    var c := cs[i];
    var c' := if i == 0 then c else Clear(prev.turn - prev.gain, prev.gain * 2, c.gain, PySlice(c.path, 0, prev.gain * 2));
    Clear(c'.turn, c'.moveCap, |NewLand(c'.path, Later(cs, i))|, c'.path)
  }

  /** The pass gives up on a clear that gains nothing, unless it is the last one and may still move. */
  predicate Dead(c: Clear, i: int, n: int)
  {
    c.gain == 0 && (i < n - 1 || |c.path| == c.moveCap)
  }

  function Prepend(done: seq<Clear>, rest: Option<seq<Clear>>): Option<seq<Clear>>
  {
    if rest.None? then None else Some(done + rest.value)
  }

  /** The clears from `i` on after the pass, `prev` the rewritten clear before them; None once one of them is dead. */
  function PassFrom(cs: seq<Clear>, i: nat, prev: Clear): Option<seq<Clear>>
    requires i <= |cs|
    decreases |cs| - i
  {
    if i == |cs| then Some([])
    else
      var c := Rewrite(cs, i, prev);
      if Dead(c, i, |cs|) then None else Prepend([c], PassFrom(cs, i + 1, c))
  }

  /** The recompute pass over all clears. */
  function Pass(cs: seq<Clear>): Option<seq<Clear>>
    requires |cs| > 0
  {
    PassFrom(cs, 0, cs[0])
  }

  /** `get_next_state(state, move)` as a function of the state and the move. */
  function NextState(capital: int, s: State, m: Move): Option<State>
    requires |s.clears| > 0 && 0 <= m.destination < |s.board|
  {
    var cs := Extended(capital, s.clears, m);
    var board := s.board[m.destination := |cs| - 1];
    if s.board[m.destination] == EMPTY then Some(State(board, cs))
    else
      var p := Pass(cs);
      if p.None? then None else Some(State(board, p.value))
  }

  lemma {:induction false} FlattenConcat(a: seq<Clear>, b: seq<Clear>)
    ensures Flatten(a + b) == Flatten(a) + Flatten(b)
    decreases |b|
  {
    if b != [] {
      var b' := b[..|b| - 1];
      assert (a + b)[..|a + b| - 1] == a + b';
      FlattenConcat(a, b');
    } else {
      assert a + b == a;
    }
  }

  /** `full_path[segment_ends[i]:]` is what the clears after clear `i` walk. */
  lemma {:induction false} LaterSteps(cs: seq<Clear>, i: int)
    requires 0 <= i < |cs|
    ensures PySlice(Flatten(cs), SegmentEnds(cs)[i], |Flatten(cs)|) == Later(cs, i)
  {
    var x, y := Flatten(cs[..i + 1]), Flatten(cs[i + 1..]);
    assert cs == cs[..i + 1] + cs[i + 1..];
    FlattenConcat(cs[..i + 1], cs[i + 1..]);
    PySliceInRange(x + y, |x|, |x + y|);
    SubIsSlice(x + y, |x|, |x + y|);
    assert (x + y)[|x|..|x + y|] == y;
  }

  /** A step is new land exactly when it is on the path and not walked later; there is no more new land than steps. */
  lemma {:induction false} NewLandExact(path: seq<int>, later: seq<int>)
    ensures |NewLand(path, later)| <= |path|
    ensures forall x :: x in NewLand(path, later) <==> x in path && x !in later
    decreases |path|
  {
    if path != [] {
      var p := path[..|path| - 1];
      NewLandExact(p, later);
      assert path == p + [Last(path)];
    }
  }

  lemma {:induction false} PrependAssoc(a: seq<Clear>, b: seq<Clear>, rest: Option<seq<Clear>>)
    ensures Prepend(a, Prepend(b, rest)) == Prepend(a + b, rest)
  {
    if rest.Some? {
      assert a + (b + rest.value) == (a + b) + rest.value;
    }
  }

  /** The rewritten clear before clear `i`, or the first clear when `i` is 0. */
  function Before(orig: seq<Clear>, clears: seq<Clear>, i: int): Clear
    requires 0 <= i <= |clears| && |orig| > 0
  {
    if i == 0 then orig[0] else clears[i - 1]
  }

  /** The invariant of the recompute loop: clears before `i` rewritten, the others as they were. */
  ghost predicate Recomputing(orig: seq<Clear>, clears: seq<Clear>, i: int, previousGain: int)
  {
    |orig| > 0 && |clears| == |orig| && 0 <= i <= |orig| && clears[i..] == orig[i..]
    && (i > 0 ==> previousGain == clears[i - 1].gain)
    && Pass(orig) == Prepend(clears[..i], PassFrom(orig, i, Before(orig, clears, i)))
  }

  /** One turn of the recompute loop: `clear` is clear `i` as the loop body rewrites it. */
  lemma {:induction false} RecomputeKeeps(orig: seq<Clear>, clears: seq<Clear>, i: int, previousGain: int, base: Clear, clear: Clear)
    requires Recomputing(orig, clears, i, previousGain) && i < |orig|
    requires base == if i == 0 then clears[i] else
      Clear(clears[i - 1].turn - previousGain, previousGain * 2, clears[i].gain, PySlice(clears[i].path, 0, previousGain * 2))
    requires clear == base.(gain := |NewLand(base.path, PySlice(Flatten(orig), SegmentEnds(orig)[i], |Flatten(orig)|))|)
    ensures |clears| == |orig|
    ensures Dead(clear, i, |orig|) ==> Pass(orig) == None
    ensures !Dead(clear, i, |orig|) ==> Recomputing(orig, clears[i := clear], i + 1, clear.gain)
  {
    var prev := Before(orig, clears, i);
    assert clears[i] == orig[i];
    LaterSteps(orig, i);
    assert clear == Rewrite(orig, i, prev);
    PrependAssoc(clears[..i], [clear], PassFrom(orig, i + 1, clear));
    var clears' := clears[i := clear];
    assert clears'[..i + 1] == clears[..i] + [clear];
    assert clears'[i + 1..] == orig[i + 1..];
  }

  /**
   * The recompute pass of `get_next_state` over the clears `orig`: rewrite
   * each clear in order and give up on the first dead one.
   */
  method Recompute(orig: seq<Clear>) returns (r: Option<seq<Clear>>)
    requires |orig| > 0
    ensures r == Pass(orig)
  {
    var clears := orig;
    var fullPath := Flatten(clears);
    var segmentEnds := SegmentEnds(clears);
    var previousGain := 0;
    assert Pass(orig).Some? ==> [] + Pass(orig).value == Pass(orig).value;
    for i := 0 to |clears|
      invariant Recomputing(orig, clears, i, previousGain)
    {
      var clear := clears[i];
      if i > 0 {
        var cap := previousGain * 2;
        clear := Clear(clears[i - 1].turn - previousGain, cap, clear.gain, PySlice(clear.path, 0, cap));
      }
      ghost var base := clear;
      clear := clear.(gain := |NewLand(clear.path, PySlice(fullPath, segmentEnds[i], |fullPath|))|);
      RecomputeKeeps(orig, clears, i, previousGain, base, clear);
      clears := clears[i := clear];
      previousGain := clear.gain;
      if clear.gain == 0 && (i < |clears| - 1 || |clear.path| == clear.moveCap) {
        return None;
      }
    }
    assert PassFrom(orig, |orig|, Before(orig, clears, |orig|)) == Some([]);
    assert clears[..|orig|] + [] == clears;
    return Some(clears);
  }

  /**
   * `get_next_state(state, move)`: copy the board and the clears, open a new
   * clear for a move from the capital, append the destination to the last
   * clear, mark it claimed by that clear and count it as gained; when the
   * tile was already claimed, recompute all clears.
   */
  method GetNextState(capital: int, state: State, m: Move) returns (r: Option<State>)
    requires |state.clears| > 0 && 0 <= m.destination < |state.board|
    ensures r == NextState(capital, state, m)
  {
    var board := state.board;
    var clears := state.clears;
    if m.origin == capital {
      clears := clears + [Opened(clears[|clears| - 1])];
    }
    var last := clears[|clears| - 1];
    clears := clears[|clears| - 1 := last.(path := last.path + [m.destination])];
    var destinationValue := board[m.destination];
    board := board[m.destination := |clears| - 1];
    last := clears[|clears| - 1];
    clears := clears[|clears| - 1 := last.(gain := last.gain + 1)];
    assert clears == Extended(capital, state.clears, m);
    if destinationValue != EMPTY {
      var recomputed := Recompute(clears);
      if recomputed.None? {
        return None;
      }
      clears := recomputed.value;
    }
    return Some(State(board, clears));
  }

  /** A move from the capital onto an unclaimed tile opens a clear that starts when the last one has made its gain, with that tile as its first step. */
  lemma {:induction false} CapitalMoveOpens(capital: int, s: State, m: Move)
    requires |s.clears| > 0 && 0 <= m.destination < |s.board|
    requires m.origin == capital && s.board[m.destination] == EMPTY
    ensures NextState(capital, s, m) == Some(State(
      s.board[m.destination := |s.clears|],
      s.clears + [Clear(Last(s.clears).turn - Last(s.clears).gain, 2 * Last(s.clears).gain, 1, [m.destination])]))
  {
    var o := Opened(Last(s.clears));
    var o' := Clear(o.turn, o.moveCap, o.gain + 1, o.path + [m.destination]);
    assert Last(s.clears + [o]) == o;
    assert (s.clears + [o])[|s.clears| := o'] == s.clears + [o'];
    assert Extended(capital, s.clears, m) == s.clears + [o'];
    assert o' == Clear(Last(s.clears).turn - Last(s.clears).gain, 2 * Last(s.clears).gain, 1, [m.destination]);
    assert |Extended(capital, s.clears, m)| - 1 == |s.clears|;
  }

  /**
   * A move from anywhere else onto an unclaimed tile changes three things:
   * the tile is appended to the last clear's path, that clear gains one tile,
   * and the board marks the tile as claimed by that clear.
   */
  lemma {:induction false} TipMoveExtends(capital: int, s: State, m: Move)
    requires |s.clears| > 0 && 0 <= m.destination < |s.board|
    requires m.origin != capital && s.board[m.destination] == EMPTY
    ensures NextState(capital, s, m) == Some(State(
      s.board[m.destination := |s.clears| - 1],
      s.clears[|s.clears| - 1 := Last(s.clears).(gain := Last(s.clears).gain + 1, path := Last(s.clears).path + [m.destination])]))
  {
  }

  /** `done` are the clears from `i` on as the pass rewrites them one after the other, `prev` the one before, and none of them is dead. */
  ghost predicate LiveChain(cs: seq<Clear>, i: nat, prev: Clear, done: seq<Clear>)
    decreases |done|
  {
    done == [] ||
    (i < |cs| && done[0] == Rewrite(cs, i, prev) && !Dead(done[0], i, |cs|) && LiveChain(cs, i + 1, done[0], done[1..]))
  }

  /** Clear `j` of a live chain is the rewrite of clear `i + j` after the one before it, and it is not dead. */
  lemma {:induction false} ChainAt(cs: seq<Clear>, i: nat, prev: Clear, done: seq<Clear>, j: nat)
    requires LiveChain(cs, i, prev, done) && j < |done|
    ensures i + j < |cs|
    ensures done[j] == Rewrite(cs, i + j, if j == 0 then prev else done[j - 1])
    ensures !Dead(done[j], i + j, |cs|)
    decreases j
  {
    if j > 0 {
      ChainAt(cs, i + 1, done[0], done[1..], j - 1);
    }
  }

  /** What the pass from clear `i` on returns is the live chain of all the clears from `i` on. */
  lemma {:induction false} PassLive(cs: seq<Clear>, i: nat, prev: Clear, r: seq<Clear>)
    requires i <= |cs| && PassFrom(cs, i, prev) == Some(r)
    ensures |r| == |cs| - i && LiveChain(cs, i, prev, r)
    decreases |cs| - i
  {
    if i < |cs| {
      var c := Rewrite(cs, i, prev);
      var rest := PassFrom(cs, i + 1, c).value;
      PassLive(cs, i + 1, c, rest);
      assert r == [c] + rest;
      assert r[1..] == rest;
    }
  }

  /** When the pass from clear `i` on gives up, a live chain of rewritten clears runs into a dead one, clear `i + |done|`. */
  lemma {:induction false} PassDies(cs: seq<Clear>, i: nat, prev: Clear) returns (done: seq<Clear>)
    requires i <= |cs| && PassFrom(cs, i, prev) == None
    ensures LiveChain(cs, i, prev, done) && i + |done| < |cs|
    ensures Dead(Rewrite(cs, i + |done|, if done == [] then prev else Last(done)), i + |done|, |cs|)
    decreases |cs| - i
  {
    var c := Rewrite(cs, i, prev);
    if Dead(c, i, |cs|) {
      done := [];
    } else {
      var done' := PassDies(cs, i + 1, c);
      done := [c] + done';
      assert done[1..] == done';
      assert done' != [] ==> Last(done) == Last(done');
    }
  }

  /** What the pass returns, with live chains, from clear `i` on: a live chain of them all, or None when the chain runs into a dead clear. */
  lemma {:induction false} PassIff(cs: seq<Clear>, i: nat, prev: Clear)
    requires i <= |cs|
    ensures PassFrom(cs, i, prev).Some? <==> exists r :: |r| == |cs| - i && LiveChain(cs, i, prev, r)
  {
    if PassFrom(cs, i, prev).Some? {
      PassLive(cs, i, prev, PassFrom(cs, i, prev).value);
    } else {
      var done := PassDies(cs, i, prev);
      forall r | |r| == |cs| - i && LiveChain(cs, i, prev, r)
        ensures false
      {
        ChainPrefix(cs, i, prev, r, done);
      }
    }
  }

  /** Two live chains from the same clear agree on the shorter one's length; so a chain that stops before a dead clear cannot be extended past it. */
  lemma {:induction false} ChainPrefix(cs: seq<Clear>, i: nat, prev: Clear, r: seq<Clear>, done: seq<Clear>)
    requires LiveChain(cs, i, prev, r) && LiveChain(cs, i, prev, done) && i + |done| < |cs|
    requires Dead(Rewrite(cs, i + |done|, if done == [] then prev else Last(done)), i + |done|, |cs|)
    ensures |r| <= |done|
    decreases |done|
  {
    if r != [] && done != [] {
      assert r[0] == done[0];
      assert done[1..] != [] ==> Last(done[1..]) == Last(done);
      ChainPrefix(cs, i + 1, r[0], r[1..], done[1..]);
    }
  }

  /** A rewritten clear after the first: its turn, its moves and its path cut to at most that many steps. */
  lemma {:induction false} RewriteLater(cs: seq<Clear>, j: int, prev: Clear)
    requires 0 < j < |cs| && prev.gain >= 0
    ensures Rewrite(cs, j, prev).turn == prev.turn - prev.gain && Rewrite(cs, j, prev).moveCap == 2 * prev.gain
    ensures |Rewrite(cs, j, prev).path| == Min(2 * prev.gain, |cs[j].path|)
    ensures Rewrite(cs, j, prev).path == cs[j].path[..|Rewrite(cs, j, prev).path|]
  {
    PySliceNonNegative(cs[j].path, 0, 2 * prev.gain);
  }

  /** A rewritten clear gains the steps of its path that no later clear walks, at most one per step. */
  lemma {:induction false} RewriteGain(cs: seq<Clear>, j: int, prev: Clear)
    requires 0 <= j < |cs|
    ensures Rewrite(cs, j, prev).gain == |NewLand(Rewrite(cs, j, prev).path, Later(cs, j))| <= |Rewrite(cs, j, prev).path|
  {
    var c := Rewrite(cs, j, prev);
    NewLandExact(c.path, Later(cs, j));
  }

  /** Clear `j` starts when clear `j - 1` has made its gain, strictly later in the countdown of turns, and moves twice that gain. */
  predicate StartsAfter(r: seq<Clear>, j: int)
    requires 0 < j < |r|
  {
    r[j].turn == r[j - 1].turn - r[j - 1].gain && r[j].moveCap == 2 * r[j - 1].gain
    && r[j].turn < r[j - 1].turn && r[j].moveCap >= 2
  }

  /**
   * The schedule the pass leaves: every clear after the first starts when the
   * one before it has made its gain, strictly earlier, with twice that gain as
   * its moves; the first clear keeps its turn and moves.
   */
  lemma {:induction false} PassTurns(cs: seq<Clear>, r: seq<Clear>)
    requires |cs| > 0 && Pass(cs) == Some(r)
    ensures |r| == |cs|
    ensures r[0].turn == cs[0].turn && r[0].moveCap == cs[0].moveCap
    ensures forall j :: 0 < j < |r| ==> StartsAfter(r, j)
  {
    PassLive(cs, 0, cs[0], r);
    ChainAt(cs, 0, cs[0], r, 0);
    forall j | 0 < j < |r|
      ensures StartsAfter(r, j)
    {
      ChainAt(cs, 0, cs[0], r, j - 1);
      ChainAt(cs, 0, cs[0], r, j);
      RewriteGain(cs, j - 1, if j == 1 then cs[0] else r[j - 2]);
      RewriteLater(cs, j, r[j - 1]);
    }
  }

  /** The first clear keeps its path; every later one has its path cut to at most its moves. */
  lemma {:induction false} PassPaths(cs: seq<Clear>, r: seq<Clear>)
    requires |cs| > 0 && Pass(cs) == Some(r)
    ensures |r| == |cs| && r[0].path == cs[0].path
    ensures forall j :: 0 < j < |r| ==> |r[j].path| == Min(r[j].moveCap, |cs[j].path|) && r[j].path == cs[j].path[..|r[j].path|]
  {
    PassLive(cs, 0, cs[0], r);
    ChainAt(cs, 0, cs[0], r, 0);
    forall j | 0 < j < |r|
      ensures |r[j].path| == Min(r[j].moveCap, |cs[j].path|) && r[j].path == cs[j].path[..|r[j].path|]
    {
      ChainAt(cs, 0, cs[0], r, j - 1);
      ChainAt(cs, 0, cs[0], r, j);
      RewriteGain(cs, j - 1, if j == 1 then cs[0] else r[j - 2]);
      RewriteLater(cs, j, r[j - 1]);
    }
  }

  /**
   * Every clear the pass leaves gains the steps of its path no later clear
   * walks; every clear but the last gains something, and the last one gains
   * something or may still move.
   */
  lemma {:induction false} PassGains(cs: seq<Clear>, r: seq<Clear>)
    requires |cs| > 0 && Pass(cs) == Some(r)
    ensures |r| == |cs|
    ensures forall j :: 0 <= j < |r| ==> r[j].gain == |NewLand(r[j].path, Later(cs, j))| <= |r[j].path|
    ensures forall j :: 0 <= j < |r| - 1 ==> r[j].gain > 0
    ensures Last(r).gain > 0 || |Last(r).path| != Last(r).moveCap
  {
    PassLive(cs, 0, cs[0], r);
    forall j | 0 <= j < |r|
      ensures r[j].gain == |NewLand(r[j].path, Later(cs, j))| <= |r[j].path|
      ensures !Dead(r[j], j, |cs|)
    {
      ChainAt(cs, 0, cs[0], r, j);
      RewriteGain(cs, j, if j == 0 then cs[0] else r[j - 1]);
    }
  }

  /** Every tile of the board is an obstacle, unclaimed, or marked with a clear index below `n`. */
  predicate Marks(board: seq<int>, n: int)
  {
    forall c :: 0 <= c < |board| ==> board[c] == UNKNOWN_OBSTACLE || board[c] == EMPTY || 0 <= board[c] < n
  }

  /**
   * The board of the next state still holds only obstacles, unclaimed tiles
   * and marks below the number of its clears plus `k`: with `k` 0 the marks
   * are indices of clears; the search needs `k` 1, since dropping its initial
   * clear leaves the mark of the first move's tile one too high.
   */
  lemma {:induction false} NextStateMarks(capital: int, s: State, m: Move, k: nat)
    requires |s.clears| > 0 && 0 <= m.destination < |s.board| && Marks(s.board, |s.clears| + k)
    ensures NextState(capital, s, m).Some? ==>
      |NextState(capital, s, m).value.clears| >= |s.clears| && Marks(NextState(capital, s, m).value.board, |NextState(capital, s, m).value.clears| + k)
  {
    var cs := Extended(capital, s.clears, m);
    if s.board[m.destination] != EMPTY && Pass(cs).Some? {
      PassLive(cs, 0, cs[0], Pass(cs).value);
    }
  }
}

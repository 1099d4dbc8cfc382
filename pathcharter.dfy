/**
 * `chart_path(start, dest)`: compute the distance field towards `dest`, then
 * walk greedily from `start`, each time to the neighbour (right, up, left,
 * down, leaving out the ones at UNKNOWN_OBSTACLE) that a stable sort by
 * distance puts first.
 */
module PathCharter {
  import opened Wrappers
  import opened Tiles
  import opened Grid
  import opened Distances

  /** The cell a translation gave, kept when it exists and is not blocked in `d`. */
  function Unblocked(d: seq<int>, n: Option<int>): seq<int>
  {
    if n.Some? && 0 <= n.value < |d| && d[n.value] != UNKNOWN_OBSTACLE then [n.value] else []
  }

  /** `[t(c) for t in ts if t(c) is not None and d[t(c)] != UNKNOWN_OBSTACLE]`. */
  function CandidatesFrom(g: Grid, d: seq<int>, c: int, ts: seq<Translation>): seq<int>
    requires g.width > 0
  {
    if ts == [] then [] else Unblocked(d, Translate(g, ts[0], c)) + CandidatesFrom(g, d, c, ts[1..])
  }

  /** The candidate steps from `c`, in the order of `cardinal_translations()`: right, up, left, down. */
  function Candidates(g: Grid, d: seq<int>, c: int): seq<int>
    requires g.width > 0
  {
    CandidatesFrom(g, d, c, Translations())
  }

  /** Every candidate is an unblocked neighbour of `c`, and there is at most one per translation. */
  lemma {:induction false} CandidatesFromSound(g: Grid, d: seq<int>, c: int, ts: seq<Translation>)
    requires g.width > 0
    ensures |CandidatesFrom(g, d, c, ts)| <= |ts|
    ensures forall k :: 0 <= k < |CandidatesFrom(g, d, c, ts)| ==>
      0 <= CandidatesFrom(g, d, c, ts)[k] < |d| && IsNeighbour(g, c, CandidatesFrom(g, d, c, ts)[k])
      && d[CandidatesFrom(g, d, c, ts)[k]] != UNKNOWN_OBSTACLE
    decreases |ts|
  {
    if ts != [] {
      CandidatesFromSound(g, d, c, ts[1..]);
      var u, rest := Unblocked(d, Translate(g, ts[0], c)), CandidatesFrom(g, d, c, ts[1..]);
      if u != [] {
        assert IsNeighbour(g, c, u[0]) by {
          match ts[0]
          case ToRight =>
          case ToUp =>
          case ToLeft =>
          case ToDown =>
        }
      }
      assert forall k :: |u| <= k < |u + rest| ==> (u + rest)[k] == rest[k - |u|];
    }
  }

  lemma {:induction false} CandidatesSound(g: Grid, d: seq<int>, c: int)
    requires g.width > 0
    ensures |Candidates(g, d, c)| <= 4
    ensures forall k :: 0 <= k < |Candidates(g, d, c)| ==>
      0 <= Candidates(g, d, c)[k] < |d| && IsNeighbour(g, c, Candidates(g, d, c)[k]) && d[Candidates(g, d, c)[k]] != UNKNOWN_OBSTACLE
  {
    CandidatesFromSound(g, d, c, Translations());
  }

  /** Every unblocked translation in `ts` is among the candidates. */
  lemma {:induction false} CandidatesFromComplete(g: Grid, d: seq<int>, c: int, ts: seq<Translation>, j: int, n: int)
    requires g.width > 0
    requires 0 <= j < |ts| && Translate(g, ts[j], c) == Some(n) && 0 <= n < |d| && d[n] != UNKNOWN_OBSTACLE
    ensures n in CandidatesFrom(g, d, c, ts)
    decreases |ts|
  {
    if j > 0 {
      CandidatesFromComplete(g, d, c, ts[1..], j - 1, n);
    }
  }

  /** Every unblocked neighbour of `c` is a candidate step. */
  lemma {:induction false} CandidateMember(g: Grid, d: seq<int>, c: int, n: int)
    requires g.width > 0 && IsNeighbour(g, c, n) && 0 <= n < |d| && d[n] != UNKNOWN_OBSTACLE
    ensures n in Candidates(g, d, c)
  {
    var ts := Translations();
    if Right(g, c) == Some(n) {
      CandidatesFromComplete(g, d, c, ts, 0, n);
    } else if Up(g, c) == Some(n) {
      CandidatesFromComplete(g, d, c, ts, 1, n);
    } else if Left(g, c) == Some(n) {
      CandidatesFromComplete(g, d, c, ts, 2, n);
    } else {
      CandidatesFromComplete(g, d, c, ts, 3, n);
    }
  }

  /**
   * The position a stable sort of `s` by `d` moves to the front: the first
   * element whose key is least.
   */
  function FirstMin(d: seq<int>, s: seq<int>): (k: nat)
    requires |s| > 0 && forall i :: 0 <= i < |s| ==> 0 <= s[i] < |d|
    ensures k < |s|
    decreases |s|
  {
    if |s| == 1 then 0
    else
      var k := FirstMin(d, s[..|s| - 1]);
      if d[s[|s| - 1]] < d[s[k]] then |s| - 1 else k
  }

  /** The key at `FirstMin` is the least one, and every element before it has a larger key. */
  lemma {:induction false} FirstMinLeast(d: seq<int>, s: seq<int>)
    requires |s| > 0 && forall i :: 0 <= i < |s| ==> 0 <= s[i] < |d|
    ensures forall i :: 0 <= i < |s| ==> d[s[FirstMin(d, s)]] <= d[s[i]]
    ensures forall i :: 0 <= i < FirstMin(d, s) ==> d[s[FirstMin(d, s)]] < d[s[i]]
    decreases |s|
  {
    if |s| > 1 {
      var p := s[..|s| - 1];
      FirstMinLeast(d, p);
      assert forall i :: 0 <= i < |p| ==> p[i] == s[i];
    }
  }

  /** `next_step.sort(key=...); next_step[0]`: None where the list is empty and the source raises IndexError. */
  function Step(g: Grid, d: seq<int>, c: int): (r: Option<int>)
    requires g.width > 0 && InGrid(g, c) && |d| == g.Size()
    ensures r.Some? ==> 0 <= r.value < |d|
  {
    var cands := Candidates(g, d, c);
    CandidatesSound(g, d, c);
    if cands == [] then None else Some(cands[FirstMin(d, cands)])
  }

  /** The greedy step, when there is one, goes to an unblocked neighbour whose distance no other candidate beats. */
  lemma {:induction false} StepSound(g: Grid, d: seq<int>, c: int)
    requires g.width > 0 && InGrid(g, c) && |d| == g.Size()
    ensures Step(g, d, c).None? <==> Candidates(g, d, c) == []
    ensures Step(g, d, c).Some? ==>
      (0 <= Step(g, d, c).value < |d| && IsNeighbour(g, c, Step(g, d, c).value)
       && d[Step(g, d, c).value] != UNKNOWN_OBSTACLE
       && forall n :: n in Candidates(g, d, c) && 0 <= n < |d| ==> d[Step(g, d, c).value] <= d[n])
  {
    var cands := Candidates(g, d, c);
    CandidatesSound(g, d, c);
    if cands != [] {
      FirstMinLeast(d, cands);
    }
  }

  /** Every cell of `path` after the first is the greedy step from the cell before it. */
  predicate Greedy(g: Grid, d: seq<int>, path: seq<int>)
    requires g.width > 0 && |d| == g.Size() && forall k :: 0 <= k < |path| ==> 0 <= path[k] < |d|
    decreases |path|
  {
    |path| <= 1 || (Greedy(g, d, path[..|path| - 1]) && Step(g, d, path[|path| - 2]) == Some(path[|path| - 1]))
  }

  /** A greedy path takes the greedy step at every position. */
  lemma {:induction false} GreedySteps(g: Grid, d: seq<int>, path: seq<int>)
    requires g.width > 0 && |d| == g.Size() && forall k :: 0 <= k < |path| ==> 0 <= path[k] < |d|
    requires Greedy(g, d, path)
    ensures forall k :: 0 <= k < |path| - 1 ==> Step(g, d, path[k]) == Some(path[k + 1])
    decreases |path|
  {
    if |path| > 1 {
      var p := path[..|path| - 1];
      GreedySteps(g, d, p);
      forall k | 0 <= k < |path| - 2
        ensures Step(g, d, path[k]) == Some(path[k + 1])
      {
        assert p[k] == path[k] && p[k + 1] == path[k + 1];
      }
    }
  }

  /**
   * From a cell at a positive distance, the greedy step exists and goes to a
   * neighbour exactly one nearer: some neighbour is one nearer and none is
   * nearer still.
   */
  lemma {:induction false} DescendStep(g: Grid, view: seq<int>, dest: int, d: seq<int>, c: int)
    requires IsDistanceField(g, view, dest, d) && 0 <= c < |d| && d[c] > 0
    ensures Step(g, d, c).Some? && 0 <= Step(g, d, c).value < |d|
    ensures IsNeighbour(g, c, Step(g, d, c).value) && d[Step(g, d, c).value] == d[c] - 1
  {
    assert HasNearer(g, d, c);
    var p :| 0 <= p < |d| && IsNeighbour(g, p, c) && d[p] == d[c] - 1;
    NeighbourSymmetric(g, p, c);
    CandidateMember(g, d, c, p);
    var cands := Candidates(g, d, c);
    CandidatesSound(g, d, c);
    FirstMinLeast(d, cands);
    var n := cands[FirstMin(d, cands)];
    assert d[n] <= d[p] by {
      var i :| 0 <= i < |cands| && cands[i] == p;
    }
    NeighbourSymmetric(g, c, n);
  }

  /**
   * Where the greedy walk ends: from a reached cell it always arrives; from a
   * blocked start (which is never `dest`) it arrives when its first step lands
   * on a reached cell. Elsewhere the source raises IndexError or walks among
   * unreached cells for ever.
   */
  predicate Arrives(g: Grid, d: seq<int>, start: int)
    requires g.width > 0 && InGrid(g, start) && |d| == g.Size()
  {
    d[start] >= 0
    || (d[start] == UNKNOWN_OBSTACLE && Step(g, d, start).Some? && d[Step(g, d, start).value] >= 0)
  }

  /**
   * The invariant of the descent loop: `path` runs greedily from `start` to
   * `current`, a reached cell, each cell after the first one nearer than the
   * one before.
   */
  ghost predicate Descending(g: Grid, view: seq<int>, dest: int, d: seq<int>, start: int, path: seq<int>, current: int)
  {
    IsDistanceField(g, view, dest, d) && |d| == g.Size()
    && 0 <= current < |d| && d[current] >= 0
    && |path| > 0 && path[0] == start && path[|path| - 1] == current
    && (forall k :: 0 <= k < |path| ==> 0 <= path[k] < |d|)
    && Greedy(g, d, path)
    && (forall k :: 0 <= k < |path| - 1 ==> IsNeighbour(g, path[k], path[k + 1]))
    && (forall k :: 1 <= k < |path| ==> d[path[k]] == d[current] + |path| - 1 - k)
    && (d[start] >= 0 ==> |path| == d[start] - d[current] + 1)
  }

  /** One greedy step from a cell that is not `dest`. */
  lemma {:induction false} DescendKeeps(g: Grid, view: seq<int>, dest: int, d: seq<int>, start: int, path: seq<int>, current: int)
    requires Descending(g, view, dest, d, start, path, current) && current != dest
    ensures Step(g, d, current).Some?
    ensures Descending(g, view, dest, d, start, path + [Step(g, d, current).value], Step(g, d, current).value)
    ensures d[Step(g, d, current).value] < d[current]
  {
    DescendStep(g, view, dest, d, current);
    var next := Step(g, d, current).value;
    assert (path + [next])[..|path|] == path;
  }

  /** The greedy descent of `chart_path` over the distance field `d` towards `dest`. */
  method Descend(g: Grid, ghost view: seq<int>, dest: int, d: seq<int>, start: int) returns (r: Option<seq<int>>)
    requires IsDistanceField(g, view, dest, d) && |d| == g.Size() && 0 <= start < |d|
    ensures r.Some? <==> Arrives(g, d, start)
    ensures r.Some? ==> |r.value| > 0 && r.value[0] == start && r.value[|r.value| - 1] == dest
    ensures r.Some? ==> forall k :: 0 <= k < |r.value| ==> 0 <= r.value[k] < |d|
    ensures r.Some? ==> Greedy(g, d, r.value)
    ensures r.Some? ==> forall k :: 0 <= k < |r.value| - 1 ==> IsNeighbour(g, r.value[k], r.value[k + 1])
    ensures r.Some? ==> forall k :: 1 <= k < |r.value| ==> d[r.value[k]] == |r.value| - 1 - k
    ensures r.Some? && d[start] >= 0 ==> |r.value| == d[start] + 1
  {
    var path := [start];
    var current := start;
    if d[start] < 0 {
      StepSound(g, d, start);
      var next := Step(g, d, start);
      if d[start] == EMPTY || next.None? || d[next.value] < 0 {
        return None;
      }
      assert (path + [next.value])[..1] == path;
      path := path + [next.value];
      current := next.value;
    }
    while current != dest
      invariant Descending(g, view, dest, d, start, path, current)
      decreases d[current]
    {
      DescendKeeps(g, view, dest, d, start, path, current);
      var next := Step(g, d, current).value;
      path := path + [next];
      current := next;
    }
    return Some(path);
  }

  /**
   * `chart_path(start, dest)` on an obstacle view: the path starts at `start`,
   * ends at `dest`, steps between neighbours and enters no blocked cell; and
   * whenever some walk joins `dest` to `start`, the path exists and is no
   * longer than that walk. Over the distance field `d` from `dest` it is the
   * greedy descent, each step the first nearest candidate, one nearer at each
   * step, and from a reached start `d[start] + 1` cells long.
   */
  method ChartPath(g: Grid, view: seq<int>, start: int, dest: int) returns (r: Option<seq<int>>, ghost d: seq<int>)
    requires Setting(g, view, dest) && IsView(view) && InGrid(g, start)
    ensures r.Some? ==> |r.value| > 0 && r.value[0] == start && r.value[|r.value| - 1] == dest
    ensures r.Some? ==> forall k :: 0 <= k < |r.value| - 1 ==> IsNeighbour(g, r.value[k], r.value[k + 1])
    ensures r.Some? ==> forall k :: 0 <= k < |r.value| ==> 0 <= r.value[k] < |view|
    ensures r.Some? ==> forall k :: 1 <= k < |r.value| ==> Open(view, dest, r.value[k])
    ensures forall w :: IsWalk(g, view, dest, w) && w[0] == dest && w[|w| - 1] == start ==> r.Some? && |r.value| <= |w|
    ensures IsDistanceField(g, view, dest, d) && |d| == |view| && (r.Some? <==> Arrives(g, d, start))
    ensures r.Some? ==> Greedy(g, d, r.value) && forall k :: 1 <= k < |r.value| ==> d[r.value[k]] == |r.value| - 1 - k
    ensures r.Some? && d[start] >= 0 ==> |r.value| == d[start] + 1
  {
    var field := Bfs(g, view, dest);
    r := Descend(g, view, dest, field, start);
    d := field;
    forall w | IsWalk(g, view, dest, w) && w[0] == dest && w[|w| - 1] == start
      ensures r.Some? && |r.value| <= |w|
    {
      WalkBound(g, view, dest, d, w);
    }
  }
}

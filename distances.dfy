/**
 * The breadth-first distance field of `calculate_distances`: starting from an
 * obstacle view (UNKNOWN_OBSTACLE for blocked cells, EMPTY for open ones), the
 * reference cell gets 0 and a FIFO queue hands every open cell it reaches the
 * distance of the cell that discovered it plus one.
 */
module Distances {
  import opened Wrappers
  import opened Tiles
  import opened Grid

  /** A view the search starts from: every cell is UNKNOWN_OBSTACLE or EMPTY. */
  predicate IsView(view: seq<int>)
  {
    forall c :: 0 <= c < |view| ==> view[c] == UNKNOWN_OBSTACLE || view[c] == EMPTY
  }

  /** The board the search runs on: a grid of at least one column, a view of every cell and a reference cell on it. */
  predicate Setting(g: Grid, view: seq<int>, ref: int)
  {
    g.width > 0 && |view| == g.Size() && InGrid(g, ref)
  }

  /** A cell a walk from `ref` may use: open in the view, or `ref` itself. */
  predicate Open(view: seq<int>, ref: int, c: int)
    requires 0 <= c < |view|
  {
    c == ref || view[c] != UNKNOWN_OBSTACLE
  }

  /**
   * What every field of the search keeps: `ref` at 0 and no other cell at 0,
   * exactly the cells that are not open at UNKNOWN_OBSTACLE, every other cell
   * EMPTY or a distance.
   */
  ghost predicate Fixed(g: Grid, view: seq<int>, ref: int, d: seq<int>)
  {
    Setting(g, view, ref) && |d| == |view| && d[ref] == 0
    && (forall c :: 0 <= c < |d| ==> (d[c] == UNKNOWN_OBSTACLE <==> !Open(view, ref, c)))
    && (forall c :: 0 <= c < |d| ==> d[c] == UNKNOWN_OBSTACLE || d[c] >= EMPTY)
    && (forall c :: 0 <= c < |d| && d[c] == 0 ==> c == ref)
  }

  /** Every cell at a positive distance was discovered by the neighbour `parent[c]`, one nearer. */
  ghost predicate Parents(g: Grid, d: seq<int>, parent: seq<int>)
    requires g.width > 0
  {
    |parent| == |d|
    && forall c :: 0 <= c < |d| && d[c] > 0 ==>
         0 <= parent[c] < |d| && IsNeighbour(g, parent[c], c) && d[parent[c]] == d[c] - 1
  }

  /** A neighbour that is off the grid, blocked, or reached at most one further than `dc`. */
  predicate Settled(d: seq<int>, dc: int, n: Option<int>)
  {
    n.None? || (0 <= n.value < |d| && (d[n.value] == UNKNOWN_OBSTACLE || 0 <= d[n.value] <= dc + 1))
  }

  /** Every neighbour of a processed cell is settled. */
  ghost predicate Closed(g: Grid, d: seq<int>, done: set<int>)
    requires g.width > 0
  {
    (forall c :: c in done ==> InGrid(g, c) && 0 <= c < |d| && d[c] >= 0)
    && forall c, t :: c in done ==> Settled(d, d[c], Translate(g, t, c))
  }

  /** Every reached cell is processed or waiting in the queue. */
  ghost predicate Tracked(d: seq<int>, Q: seq<int>, done: set<int>)
  {
    forall c :: 0 <= c < |d| && d[c] >= 0 ==> c in done || c in Q
  }

  /** The queue holds reached cells of the grid at distances `lo` or `lo + 1`, nearest first. */
  ghost predicate Queued(g: Grid, d: seq<int>, Q: seq<int>, lo: int)
  {
    lo >= 0
    && (forall k :: 0 <= k < |Q| ==> InGrid(g, Q[k]) && 0 <= Q[k] < |d| && lo <= d[Q[k]] <= lo + 1)
    && (forall k, l :: 0 <= k <= l < |Q| ==> d[Q[k]] <= d[Q[l]])
  }

  /** No cell is reached further than `hi`. */
  ghost predicate Bounded(d: seq<int>, hi: int)
  {
    forall c :: 0 <= c < |d| ==> d[c] <= hi
  }

  /** The invariant of the search loop. */
  ghost predicate Searching(g: Grid, view: seq<int>, ref: int, d: seq<int>, Q: seq<int>, done: set<int>, parent: seq<int>)
  {
    Fixed(g, view, ref, d) && Parents(g, d, parent) && Closed(g, d, done) && Tracked(d, Q, done)
    && (Q != [] ==> 0 <= Q[0] < |d| && Queued(g, d, Q, d[Q[0]]) && Bounded(d, d[Q[0]] + 1))
  }

  /** Some neighbour of `c` is one nearer than `c`. */
  ghost predicate HasNearer(g: Grid, d: seq<int>, c: int)
    requires g.width > 0 && 0 <= c < |d|
  {
    exists p :: 0 <= p < |d| && IsNeighbour(g, p, c) && d[p] == d[c] - 1
  }

  /**
   * The distance field the search promises: the fixed cells of `Fixed`, a
   * neighbour one nearer for every cell at a positive distance, and every open
   * neighbour of a reached cell reached at most one further.
   */
  ghost predicate IsDistanceField(g: Grid, view: seq<int>, ref: int, d: seq<int>)
  {
    Fixed(g, view, ref, d)
    && (forall c {:trigger HasNearer(g, d, c)} :: 0 <= c < |d| && d[c] > 0 ==> HasNearer(g, d, c))
    && (forall c, n :: 0 <= c < |d| && d[c] >= 0 && IsNeighbour(g, c, n) && 0 <= n < |d| && d[n] != UNKNOWN_OBSTACLE
          ==> 0 <= d[n] <= d[c] + 1)
  }

  /** The invariant while the neighbours of the popped cell `c`, at distance `dc`, are visited. */
  ghost predicate Visiting(g: Grid, view: seq<int>, ref: int, d: seq<int>, Q: seq<int>, done: set<int>, parent: seq<int>, c: int, dc: int)
  {
    Fixed(g, view, ref, d) && Parents(g, d, parent) && Closed(g, d, done)
    && InGrid(g, c) && 0 <= c < |d| && d[c] == dc && dc >= 0
    && Tracked(d, Q, done + {c}) && Queued(g, d, Q, dc) && Bounded(d, dc + 1)
  }

  /** The search starts with `ref` alone in the queue. */
  lemma {:induction false} SearchStart(g: Grid, view: seq<int>, ref: int)
    requires Setting(g, view, ref) && IsView(view)
    ensures Searching(g, view, ref, view[ref := 0], [ref], {}, view[ref := 0])
  {
  }

  /** Popping the head of the queue. */
  lemma {:induction false} PopKeeps(g: Grid, view: seq<int>, ref: int, d: seq<int>, Q: seq<int>, done: set<int>, parent: seq<int>)
    requires Searching(g, view, ref, d, Q, done, parent) && Q != []
    ensures Visiting(g, view, ref, d, Q[1..], done, parent, Q[0], d[Q[0]])
  {
    assert forall c :: c in Q ==> c == Q[0] || c in Q[1..];
  }

  // Discovering an EMPTY cell `n` from a cell at distance `dc` keeps each part of the invariant.

  lemma {:induction false} FixedKeeps(g: Grid, view: seq<int>, ref: int, d: seq<int>, n: int, v: int)
    requires Fixed(g, view, ref, d) && 0 <= n < |d| && d[n] == EMPTY && v >= 1
    ensures Fixed(g, view, ref, d[n := v])
  {
  }

  lemma {:induction false} ParentsKeeps(g: Grid, d: seq<int>, parent: seq<int>, c: int, n: int)
    requires g.width > 0 && Parents(g, d, parent)
    requires 0 <= c < |d| && d[c] >= 0 && IsNeighbour(g, c, n) && 0 <= n < |d| && d[n] == EMPTY
    ensures Parents(g, d[n := d[c] + 1], parent[n := c])
  {
  }

  lemma {:induction false} ClosedKeeps(g: Grid, d: seq<int>, done: set<int>, n: int, v: int)
    requires g.width > 0 && Closed(g, d, done) && 0 <= n < |d| && d[n] == EMPTY
    ensures Closed(g, d[n := v], done)
  {
    var d' := d[n := v];
    forall c, t | c in done
      ensures Settled(d', d'[c], Translate(g, t, c))
    {
      assert Settled(d, d[c], Translate(g, t, c));
    }
  }

  lemma {:induction false} TrackedKeeps(d: seq<int>, Q: seq<int>, done: set<int>, n: int, v: int)
    requires Tracked(d, Q, done) && 0 <= n < |d|
    ensures Tracked(d[n := v], Q + [n], done)
  {
    assert forall x :: x in Q ==> x in Q + [n];
  }

  lemma {:induction false} QueuedKeeps(g: Grid, d: seq<int>, Q: seq<int>, lo: int, n: int, v: int)
    requires Queued(g, d, Q, lo) && InGrid(g, n) && 0 <= n < |d| && d[n] == EMPTY && v == lo + 1
    ensures Queued(g, d[n := v], Q + [n], lo)
  {
  }

  lemma {:induction false} SettledKeeps(d: seq<int>, dc: int, n: int, v: int)
    requires 0 <= n < |d| && d[n] == EMPTY
    ensures forall x :: Settled(d, dc, x) ==> Settled(d[n := v], dc, x)
  {
  }

  /** Reaching an EMPTY cell takes one cell off the count of EMPTY cells. */
  lemma {:induction false} EmptyCountDrops(d: seq<int>, n: int, v: int)
    requires 0 <= n < |d| && d[n] == EMPTY && v != EMPTY
    ensures multiset(d[n := v])[EMPTY] + 1 == multiset(d)[EMPTY]
  {
  }

  /** Discovering the EMPTY neighbour `n` of `c`: `n` gets `dc + 1` and joins the queue. */
  lemma {:induction false} DiscoverVisiting(g: Grid, view: seq<int>, ref: int, d: seq<int>, Q: seq<int>, done: set<int>, parent: seq<int>, c: int, dc: int, n: int)
    requires Visiting(g, view, ref, d, Q, done, parent, c, dc)
    requires InGrid(g, n) && IsNeighbour(g, c, n) && 0 <= n < |d| && d[n] == EMPTY
    ensures Visiting(g, view, ref, d[n := d[c] + 1], Q + [n], done, parent[n := c], c, dc)
  {
    FixedKeeps(g, view, ref, d, n, d[c] + 1);
    ParentsKeeps(g, d, parent, c, n);
    ClosedKeeps(g, d, done, n, d[c] + 1);
    TrackedKeeps(d, Q, done + {c}, n, d[c] + 1);
    QueuedKeeps(g, d, Q, dc, n, d[c] + 1);
  }

  /**
   * The invariant of the neighbour loop after the first `k` translations: the
   * search invariant, those `k` neighbours settled, and every cell taken off
   * EMPTY appended to the queue that had `q0` entries.
   */
  ghost predicate VisitedUpTo(g: Grid, view: seq<int>, ref: int, d0: seq<int>, q0: int, d: seq<int>, Q: seq<int>, done: set<int>, parent: seq<int>, c: int, dc: int, k: int)
  {
    Visiting(g, view, ref, d, Q, done, parent, c, dc) && 0 <= k <= 4
    && (forall j :: 0 <= j < k ==> Settled(d, dc, Translate(g, Translations()[j], c)))
    && multiset(d)[EMPTY] + (|Q| - q0) == multiset(d0)[EMPTY] && |Q| >= q0
  }

  /** The `k`-th translation of `c` is an EMPTY cell: it is discovered. */
  lemma {:induction false} DiscoverStep(g: Grid, view: seq<int>, ref: int, d0: seq<int>, q0: int, d: seq<int>, Q: seq<int>, done: set<int>, parent: seq<int>, c: int, dc: int, k: int, n: int)
    requires VisitedUpTo(g, view, ref, d0, q0, d, Q, done, parent, c, dc, k) && k < 4
    requires Translate(g, Translations()[k], c) == Some(n) && 0 <= n < |d| && d[n] == EMPTY
    ensures VisitedUpTo(g, view, ref, d0, q0, d[n := d[c] + 1], Q + [n], done, parent[n := c], c, dc, k + 1)
  {
    TranslateStays(g, Translations()[k], c);
    DiscoverVisiting(g, view, ref, d, Q, done, parent, c, dc, n);
    SettledKeeps(d, dc, n, d[c] + 1);
    EmptyCountDrops(d, n, d[c] + 1);
  }

  /** The `k`-th translation of `c` is off the grid or already reached or blocked: nothing changes. */
  lemma {:induction false} SkipStep(g: Grid, view: seq<int>, ref: int, d0: seq<int>, q0: int, d: seq<int>, Q: seq<int>, done: set<int>, parent: seq<int>, c: int, dc: int, k: int)
    requires VisitedUpTo(g, view, ref, d0, q0, d, Q, done, parent, c, dc, k) && k < 4
    requires var n := Translate(g, Translations()[k], c); n.None? || (0 <= n.value < |d| && d[n.value] != EMPTY)
    ensures VisitedUpTo(g, view, ref, d0, q0, d, Q, done, parent, c, dc, k + 1)
  {
    TranslateStays(g, Translations()[k], c);
  }

  /** After all four translations, every neighbour of `c` is settled. */
  lemma {:induction false} VisitedAll(g: Grid, view: seq<int>, ref: int, d0: seq<int>, q0: int, d: seq<int>, Q: seq<int>, done: set<int>, parent: seq<int>, c: int, dc: int)
    requires VisitedUpTo(g, view, ref, d0, q0, d, Q, done, parent, c, dc, 4)
    ensures forall t :: Settled(d, dc, Translate(g, t, c))
  {
    forall t
      ensures Settled(d, dc, Translate(g, t, c))
    {
      var ts := Translations();
      assert t == ts[0] || t == ts[1] || t == ts[2] || t == ts[3];
    }
  }

  /** `for translation in cardinal_translations()`: the neighbours of the popped cell `c`. */
  method Visit(g: Grid, ghost view: seq<int>, ghost ref: int, d: seq<int>, Q: seq<int>, ghost done: set<int>, ghost parent: seq<int>, c: int)
    returns (d': seq<int>, Q': seq<int>, ghost parent': seq<int>)
    requires 0 <= c < |d| && Visiting(g, view, ref, d, Q, done, parent, c, d[c])
    ensures Visiting(g, view, ref, d', Q', done, parent', c, d[c])
    ensures forall t :: Settled(d', d[c], Translate(g, t, c))
    ensures multiset(d')[EMPTY] + (|Q'| - |Q|) == multiset(d)[EMPTY] && |Q'| >= |Q|
  {
    ghost var dc := d[c];
    d', Q', parent' := d, Q, parent;
    var ts := Translations();
    for k := 0 to 4
      invariant VisitedUpTo(g, view, ref, d, |Q|, d', Q', done, parent', c, dc, k)
    {
      var n := Translate(g, ts[k], c);
      TranslateStays(g, ts[k], c);
      if n.Some? && d'[n.value] == EMPTY {
        DiscoverStep(g, view, ref, d, |Q|, d', Q', done, parent', c, dc, k, n.value);
        d' := d'[n.value := d'[c] + 1];
        Q' := Q' + [n.value];
        parent' := parent'[n.value := c];
      } else {
        SkipStep(g, view, ref, d, |Q|, d', Q', done, parent', c, dc, k);
      }
    }
    VisitedAll(g, view, ref, d, |Q|, d', Q', done, parent', c, dc);
  }

  /** Once all its neighbours are settled, the popped cell is processed. */
  lemma {:induction false} VisitDone(g: Grid, view: seq<int>, ref: int, d: seq<int>, Q: seq<int>, done: set<int>, parent: seq<int>, c: int, dc: int)
    requires Visiting(g, view, ref, d, Q, done, parent, c, dc)
    requires forall t :: Settled(d, dc, Translate(g, t, c))
    ensures Searching(g, view, ref, d, Q, done + {c}, parent)
  {
  }

  /** With the queue empty, every reached cell is processed, and the field is a distance field. */
  lemma {:induction false} SearchDone(g: Grid, view: seq<int>, ref: int, d: seq<int>, done: set<int>, parent: seq<int>)
    requires Searching(g, view, ref, d, [], done, parent)
    ensures IsDistanceField(g, view, ref, d)
  {
    forall c | 0 <= c < |d| && d[c] > 0
      ensures HasNearer(g, d, c)
    {
      var p := parent[c];
    }
    forall c, n | 0 <= c < |d| && d[c] >= 0 && IsNeighbour(g, c, n) && 0 <= n < |d| && d[n] != UNKNOWN_OBSTACLE
      ensures 0 <= d[n] <= d[c] + 1
    {
      assert c in done;
      if Right(g, c) == Some(n) {
        assert Settled(d, d[c], Translate(g, ToRight, c));
      } else if Up(g, c) == Some(n) {
        assert Settled(d, d[c], Translate(g, ToUp, c));
      } else if Left(g, c) == Some(n) {
        assert Settled(d, d[c], Translate(g, ToLeft, c));
      } else {
        assert Settled(d, d[c], Translate(g, ToDown, c));
      }
    }
  }

  /** `calculate_distances` on an obstacle view: the FIFO breadth-first search. */
  method Bfs(g: Grid, view: seq<int>, ref: int) returns (d: seq<int>)
    requires Setting(g, view, ref) && IsView(view)
    ensures IsDistanceField(g, view, ref, d)
  {
    d := view[ref := 0];
    var Q := [ref];
    ghost var done: set<int> := {};
    ghost var parent := d;
    SearchStart(g, view, ref);
    while |Q| > 0
      invariant Searching(g, view, ref, d, Q, done, parent)
      decreases multiset(d)[EMPTY], |Q|
    {
      PopKeeps(g, view, ref, d, Q, done, parent);
      var c := Q[0];
      Q := Q[1..];
      ghost var dc := d[c];
      d, Q, parent := Visit(g, view, ref, d, Q, done, parent, c);
      VisitDone(g, view, ref, d, Q, done, parent, c, dc);
      done := done + {c};
    }
    SearchDone(g, view, ref, d, done, parent);
  }

  /** A 4-connected walk over cells a search from `ref` may use. */
  predicate IsWalk(g: Grid, view: seq<int>, ref: int, w: seq<int>)
  {
    g.width > 0 && |w| > 0
    && (forall k :: 0 <= k < |w| ==> 0 <= w[k] < |view| && InGrid(g, w[k]) && Open(view, ref, w[k]))
    && (forall k :: 0 <= k < |w| - 1 ==> IsNeighbour(g, w[k], w[k + 1]))
  }

  /** No walk from `ref` is shorter than the distance field says: its last cell is reached, at most `|w| - 1` away. */
  lemma {:induction false} WalkBound(g: Grid, view: seq<int>, ref: int, d: seq<int>, w: seq<int>)
    requires IsDistanceField(g, view, ref, d) && IsWalk(g, view, ref, w) && w[0] == ref
    ensures 0 <= d[w[|w| - 1]] <= |w| - 1
    decreases |w|
  {
    if |w| > 1 {
      var w' := w[..|w| - 1];
      assert forall k :: 0 <= k < |w'| ==> w'[k] == w[k];
      WalkBound(g, view, ref, d, w');
      var a, b := w[|w| - 2], w[|w| - 1];
      assert IsNeighbour(g, a, b) && Open(view, ref, b);
    }
  }

  /** Every reached cell is the end of a walk from `ref` of exactly its distance plus one, found by following nearer neighbours. */
  lemma {:induction false} DescentWalk(g: Grid, view: seq<int>, ref: int, d: seq<int>, c: int) returns (w: seq<int>)
    requires IsDistanceField(g, view, ref, d) && 0 <= c < |d| && d[c] >= 0
    ensures IsWalk(g, view, ref, w) && w[0] == ref && w[|w| - 1] == c && |w| == d[c] + 1
    decreases d[c]
  {
    if d[c] == 0 {
      w := [c];
    } else {
      assert HasNearer(g, d, c);
      var p :| 0 <= p < |d| && IsNeighbour(g, p, c) && d[p] == d[c] - 1;
      var w' := DescentWalk(g, view, ref, d, p);
      w := w' + [c];
      assert forall k :: 0 <= k < |w'| ==> w[k] == w'[k];
    }
  }

  /** A cell stays EMPTY exactly when it is open and no walk from `ref` reaches it. */
  lemma {:induction false} UnreachedIffNoWalk(g: Grid, view: seq<int>, ref: int, d: seq<int>, c: int)
    requires IsDistanceField(g, view, ref, d) && 0 <= c < |d|
    ensures d[c] == EMPTY <==> Open(view, ref, c) && forall w :: IsWalk(g, view, ref, w) && w[0] == ref ==> w[|w| - 1] != c
  {
    if d[c] == EMPTY {
      forall w | IsWalk(g, view, ref, w) && w[0] == ref
        ensures w[|w| - 1] != c
      {
        WalkBound(g, view, ref, d, w);
      }
    } else if d[c] >= 0 {
      var w := DescentWalk(g, view, ref, d, c);
    }
  }
}

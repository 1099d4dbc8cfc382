/**
 * The run-length delta the server sends each turn. A diff alternates
 * "number of elements to keep from the previous array" with "number of literal
 * elements that follow", each mismatch count followed by its literals:
 *
 *   <matching count> <mismatching count> <literals> <matching count> ...
 *
 * `Patch` rebuilds the next array from the previous one and the diff.
 */
module Delta {
  import opened PySlices

  /**
   * Every mismatch count the patch loop reads from cursor `c` on is
   * non-negative. The loop moves its cursor forward by such a count, so this
   * is what makes it end; the server's diffs have this shape.
   */
  predicate WellFormedFrom(diff: seq<int>, c: nat)
    decreases |diff| - c
  {
    c + 1 >= |diff| || (diff[c + 1] >= 0 && WellFormedFrom(diff, c + 2 + diff[c + 1]))
  }

  predicate WellFormed(diff: seq<int>)
  {
    WellFormedFrom(diff, 0)
  }

  /**
   * A matching run of `m`: the next `m` elements of `prev`, at the output's
   * own positions, as Python's clipping slice takes them; a zero count adds nothing.
   */
  function Keep(prev: seq<int>, m: int, out: seq<int>): seq<int>
  {
    if m != 0 then out + PySlice(prev, |out|, |out| + m) else out
  }

  /** The matching run whose count sits at cursor `c`. */
  function CopyRun(prev: seq<int>, diff: seq<int>, c: nat, out: seq<int>): seq<int>
    requires c < |diff|
  {
    Keep(prev, diff[c], out)
  }

  /** The mismatch run whose count sits at `c + 1`: the literals that follow it. */
  function Literals(diff: seq<int>, c: nat): seq<int>
    requires c + 1 < |diff|
  {
    PySlice(diff, c + 2, c + 2 + diff[c + 1])
  }

  /**
   * What patching yields once the cursor is at `c` and `out` has been
   * produced. A mismatch count that runs past the end of the diff takes the
   * literals that are there and ends the walk.
   */
  function PatchFrom(prev: seq<int>, diff: seq<int>, c: nat, out: seq<int>): seq<int>
    requires WellFormedFrom(diff, c)
    decreases |diff| - c
  {
    if c >= |diff| then out
    else if c + 1 < |diff| && diff[c + 1] != 0 then
      PatchFrom(prev, diff, c + 2 + diff[c + 1], CopyRun(prev, diff, c, out) + Literals(diff, c))
    else PatchFrom(prev, diff, c + 2, CopyRun(prev, diff, c, out))
  }

  /** The array that patching `diff` onto `prev` yields. */
  function Patched(prev: seq<int>, diff: seq<int>): seq<int>
    requires WellFormed(diff)
  {
    PatchFrom(prev, diff, 0, [])
  }

  /** `_patch(prev, diff)`: a cursor walks the diff and `out` grows run by run. */
  method Patch(prev: seq<int>, diff: seq<int>) returns (out: seq<int>)
    requires WellFormed(diff)
    ensures out == Patched(prev, diff)
  {
    out := [];
    var cursor := 0;
    while cursor < |diff|
      invariant 0 <= cursor && WellFormedFrom(diff, cursor)
      invariant PatchFrom(prev, diff, cursor, out) == Patched(prev, diff)
      decreases |diff| - cursor
    {
      ghost var c0, out0 := cursor, out;
      if diff[cursor] != 0 {  // matching
        out := out + PySlice(prev, |out|, |out| + diff[cursor]);
      }
      ghost var out1 := out;
      cursor := cursor + 1;
      ghost var c1 := cursor;
      if cursor < |diff| && diff[cursor] != 0 {  // mismatching
        out := out + PySlice(diff, cursor + 1, cursor + 1 + diff[cursor]);
        cursor := cursor + diff[cursor];
      }
      cursor := cursor + 1;
      PatchLoopStep(prev, diff, c0, out0, out1, c1, cursor, out, Patched(prev, diff));
    }
    PatchEnd(prev, diff, cursor, out, Patched(prev, diff));
  }

  /** Once the cursor is past the end of the diff, the walk yields the output produced so far. */
  lemma {:induction false} PatchEnd(prev: seq<int>, diff: seq<int>, c: nat, out: seq<int>, target: seq<int>)
    requires |diff| <= c && WellFormedFrom(diff, c) && PatchFrom(prev, diff, c, out) == target
    ensures out == target
  {
  }

  /**
   * One turn of the patch loop, from cursor `c0` and output `out0`: `out1` is
   * the output after the matching run, `c1` the cursor on the mismatch count,
   * `c2` and `out2` the state after the turn. The walk from the new state
   * yields what it yielded from the old one.
   */
  lemma {:induction false} PatchLoopStep(prev: seq<int>, diff: seq<int>, c0: nat, out0: seq<int>, out1: seq<int>, c1: int, c2: int, out2: seq<int>, target: seq<int>)
    requires c0 < |diff| && WellFormedFrom(diff, c0) && PatchFrom(prev, diff, c0, out0) == target
    requires diff[c0] != 0 ==> out1 == out0 + PySlice(prev, |out0|, |out0| + diff[c0])
    requires diff[c0] == 0 ==> out1 == out0
    requires c1 == c0 + 1
    requires c1 < |diff| && diff[c1] != 0 ==> out2 == out1 + PySlice(diff, c1 + 1, c1 + 1 + diff[c1]) && c2 == c1 + diff[c1] + 1
    requires !(c1 < |diff| && diff[c1] != 0) ==> out2 == out1 && c2 == c1 + 1
    ensures c0 < c2 && WellFormedFrom(diff, c2)
    ensures PatchFrom(prev, diff, c2, out2) == target
  {
    assert out1 == CopyRun(prev, diff, c0, out0);
    if c1 < |diff| && diff[c1] != 0 {
      assert c1 + 1 == c0 + 2 && c1 + 1 + diff[c1] == c0 + 2 + diff[c0 + 1];
      assert out2 == CopyRun(prev, diff, c0, out0) + Literals(diff, c0);
      MismatchStep(prev, diff, c0, out0);
    } else {
      MatchOnlyStep(prev, diff, c0, out0);
    }
  }

  /**
   * A matching run leaves the output produced so far alone and copies `prev`
   * at the output's own positions, never past the end of `prev`, whatever its count.
   */
  lemma {:induction false} KeepSamePositions(prev: seq<int>, m: int, out: seq<int>)
    ensures |out| <= |Keep(prev, m, out)| && Keep(prev, m, out)[..|out|] == out
    ensures forall k :: |out| <= k < |Keep(prev, m, out)| ==> k < |prev| && Keep(prev, m, out)[k] == prev[k]
  {
    if m != 0 {
      var lo, hi := SliceBound(|out|, |prev|), SliceBound(|out| + m, |prev|);
      if lo < hi {
        SubIsSlice(prev, lo, hi);
        assert Keep(prev, m, out) == out + prev[|out|..hi];
      }
    }
  }

  /** A mismatch run whose literals are all there appends exactly the `diff[c + 1]` elements after its count. */
  lemma {:induction false} LiteralsExact(diff: seq<int>, c: nat)
    requires c + 1 < |diff| && 0 <= diff[c + 1] && c + 2 + diff[c + 1] <= |diff|
    ensures Literals(diff, c) == diff[c + 2..c + 2 + diff[c + 1]]
  {
    PySliceNonNegative(diff, c + 2, c + 2 + diff[c + 1]);
  }

  /** The two examples of the docstring. */
  lemma {:induction false} DocExamples()
    ensures Patched([0, 0], [1, 1, 3]) == [0, 3]
    ensures Patched([0, 0], [0, 1, 2, 1]) == [2, 0]
  {
    assert PySlice([0, 0], 0, 1) == [0];
    assert PySlice([1, 1, 3], 2, 3) == [3];
    assert PySlice([0, 1, 2, 1], 2, 3) == [2];
    assert PySlice([0, 0], 1, 2) == [0];
  }

  /** Nothing to patch: the result is empty whatever the previous array was. */
  lemma {:induction false} EmptyDiff(prev: seq<int>)
    ensures WellFormed([]) && Patched(prev, []) == []
  {
  }

  /** One step of the walk when a mismatch run follows the matching count at `c`: keep, add the literals, jump past them. */
  lemma {:induction false} MismatchStep(prev: seq<int>, diff: seq<int>, c: nat, out: seq<int>)
    requires c + 1 < |diff| && diff[c + 1] != 0 && WellFormedFrom(diff, c)
    ensures c < c + 2 + diff[c + 1] && WellFormedFrom(diff, c + 2 + diff[c + 1])
    ensures PatchFrom(prev, diff, c, out)
            == PatchFrom(prev, diff, c + 2 + diff[c + 1], CopyRun(prev, diff, c, out) + Literals(diff, c))
  {
  }

  /** One step of the walk when no mismatch run follows the matching count at `c`: keep, then move two on. */
  lemma {:induction false} MatchOnlyStep(prev: seq<int>, diff: seq<int>, c: nat, out: seq<int>)
    requires c < |diff| && !(c + 1 < |diff| && diff[c + 1] != 0) && WellFormedFrom(diff, c)
    ensures WellFormedFrom(diff, c + 2)
    ensures PatchFrom(prev, diff, c, out) == PatchFrom(prev, diff, c + 2, CopyRun(prev, diff, c, out))
  {
  }

  // ---- Runs, their meaning, their encoding, and the diff generator ----

  /** A list of runs: how many elements to keep from the previous array, then the literals, then the rest. */
  datatype Runs = NoRuns | Run(keep: nat, lits: seq<int>, rest: Runs)

  /** What a list of runs makes of `prev` once `out` has been produced: each run keeps, then adds its literals. */
  function Apply(prev: seq<int>, runs: Runs, out: seq<int>): seq<int>
  {
    match runs
    case NoRuns => out
    case Run(m, lits, rest) => Apply(prev, rest, Keep(prev, m, out) + lits)
  }

  /** The server's encoding of a list of runs: each run's two counts, then its literals. */
  function Encode(runs: Runs): seq<int>
  {
    match runs
    case NoRuns => []
    case Run(m, lits, rest) => [m, |lits|] + lits + Encode(rest)
  }

  /** `D` holds, from offset `p` on, exactly the encoding of `runs`, read the way the patch loop reads it. */
  predicate Layout(runs: Runs, D: seq<int>, p: nat)
  {
    match runs
    case NoRuns => p == |D|
    case Run(m, lits, rest) =>
      p + 2 + |lits| <= |D| && D[p] == m && D[p + 1] == |lits|
      && Sub(D, p + 2, p + 2 + |lits|) == lits && Layout(rest, D, p + 2 + |lits|)
  }

  /** Prepending `x` moves a layout `|x|` places on. */
  lemma {:induction false} LayoutShift(runs: Runs, x: seq<int>, t: seq<int>, q: nat)
    requires Layout(runs, t, q)
    ensures Layout(runs, x + t, |x| + q)
  {
    match runs
    case NoRuns =>
    case Run(m, lits, rest) =>
      var k := |lits|;
      assert (x + t)[|x| + q] == t[q] && (x + t)[|x| + q + 1] == t[q + 1];
      SubShift(x, t, q + 2, q + 2 + k);
      LayoutShift(rest, x, t, q + 2 + k);
  }

  /** The encoding of `runs` lays them out from offset 0. */
  lemma {:induction false} LayoutEncode(runs: Runs)
    ensures Layout(runs, Encode(runs), 0)
  {
    match runs
    case NoRuns =>
    case Run(m, lits, rest) =>
      var x, t := [m, |lits|] + lits, Encode(rest);
      assert Encode(runs) == x + t;
      LayoutEncode(rest);
      LayoutShift(rest, x, t, 0);
      SubPrefix(x, t, 2, 2 + |lits|);
      SubShift([m, |lits|], lits, 0, |lits|);
      SubAll(lits);
  }

  /** The mismatch run at `p + 1` yields the literals laid out after it. */
  lemma {:induction false} LiteralsLaidOut(D: seq<int>, p: nat, k: nat, lits: seq<int>)
    requires p + 2 + k <= |D| && D[p + 1] == k && Sub(D, p + 2, p + 2 + k) == lits
    ensures Literals(D, p) == lits
  {
    PySliceInRange(D, p + 2, p + 2 + k);
  }

  /**
   * The patch walk moves past a run laid out at `p`, keeping `m` elements of
   * `prev` and adding `lits`: what the walk yields after the run, it yields
   * from the run's start.
   */
  lemma {:induction false} WalkRun(prev: seq<int>, D: seq<int>, p: nat, m: nat, lits: seq<int>, out: seq<int>, target: seq<int>)
    requires p + 2 + |lits| <= |D| && D[p] == m && D[p + 1] == |lits| && Sub(D, p + 2, p + 2 + |lits|) == lits
    requires WellFormedFrom(D, p + 2 + |lits|)
    requires PatchFrom(prev, D, p + 2 + |lits|, Keep(prev, m, out) + lits) == target
    ensures WellFormedFrom(D, p)
    ensures PatchFrom(prev, D, p, out) == target
  {
    LiteralsLaidOut(D, p, |lits|, lits);
    if lits != [] {
      MismatchStep(prev, D, p, out);
    } else {
      assert Keep(prev, m, out) + lits == CopyRun(prev, D, p, out);
      MatchOnlyStep(prev, D, p, out);
    }
  }

  /** Decoding: the patch walk over a layout of `runs` does what the runs mean. */
  lemma {:induction false} PatchLayout(prev: seq<int>, runs: Runs, D: seq<int>, p: nat, out: seq<int>)
    requires Layout(runs, D, p)
    ensures WellFormedFrom(D, p)
    ensures PatchFrom(prev, D, p, out) == Apply(prev, runs, out)
  {
    match runs
    case NoRuns =>
    case Run(m, lits, rest) =>
      PatchLayout(prev, rest, D, p + 2 + |lits|, Keep(prev, m, out) + lits);
      WalkRun(prev, D, p, m, lits, out, Apply(prev, rest, Keep(prev, m, out) + lits));
  }

  /** Length of the run of positions from `i` on where `prev` and `next` agree. */
  function MatchRun(prev: seq<int>, next: seq<int>, i: nat): (r: nat)
    requires i <= |next|
    ensures i + r <= |next| && i + r <= Max(i, |prev|)
    ensures i + r < |next| ==> i + r >= |prev| || prev[i + r] != next[i + r]
    decreases |next| - i
  {
    if i < |next| && i < |prev| && prev[i] == next[i] then 1 + MatchRun(prev, next, i + 1) else 0
  }

  /** `prev` and `next` agree along the matching run. */
  lemma {:induction false} MatchRunAgrees(prev: seq<int>, next: seq<int>, i: nat)
    requires i <= |next|
    ensures forall j :: i <= j < i + MatchRun(prev, next, i) ==> j < |prev| && prev[j] == next[j]
    decreases |next| - i
  {
    if i < |next| && i < |prev| && prev[i] == next[i] {
      MatchRunAgrees(prev, next, i + 1);
      assert MatchRun(prev, next, i) == 1 + MatchRun(prev, next, i + 1);
    } else {
      assert MatchRun(prev, next, i) == 0;
    }
  }

  /** Length of the run of positions from `i` on where `next` differs from `prev`. */
  function MismatchRun(prev: seq<int>, next: seq<int>, i: nat): (r: nat)
    requires i <= |next|
    ensures i + r <= |next|
    ensures i < |next| && (i >= |prev| || prev[i] != next[i]) ==> r >= 1
    ensures i + r < |next| ==> i + r < |prev| && prev[i + r] == next[i + r]
    decreases |next| - i
  {
    if i < |next| && (i >= |prev| || prev[i] != next[i]) then 1 + MismatchRun(prev, next, i + 1) else 0
  }

  /** Where the run that starts at position `i` of `next` ends. */
  function RunEnd(prev: seq<int>, next: seq<int>, i: nat): (j: nat)
    requires i < |next|
    ensures i < j <= |next|
  {
    var m := MatchRun(prev, next, i);
    i + m + MismatchRun(prev, next, i + m)
  }

  /** The runs of `next` against `prev` from position `i` on, each a maximal match then a maximal mismatch. */
  function RunsFrom(prev: seq<int>, next: seq<int>, i: nat): Runs
    requires i <= |next|
    decreases |next| - i
  {
    if i == |next| then NoRuns
    else
      var m := MatchRun(prev, next, i);
      var j := RunEnd(prev, next, i);
      Run(m, Sub(next, i + m, j), RunsFrom(prev, next, j))
  }

  /** Keeping the matching run at `i` extends the part of `next` before `i` to the part before `i + m`. */
  lemma {:induction false} KeepMatchRun(prev: seq<int>, next: seq<int>, i: nat)
    requires i <= |next|
    ensures i + MatchRun(prev, next, i) <= |next|
    ensures Keep(prev, MatchRun(prev, next, i), Sub(next, 0, i)) == Sub(next, 0, i + MatchRun(prev, next, i))
  {
    var m := MatchRun(prev, next, i);
    if m != 0 {
      MatchRunAgrees(prev, next, i);
      SubAgree(prev, next, i, i + m);
      PySliceInRange(prev, i, i + m);
      SubConcat(next, 0, i, i + m);
    }
  }

  /** The run at `i` turns the part of `next` before `i` into the part before the run's end. */
  lemma {:induction false} RunRebuilds(prev: seq<int>, next: seq<int>, i: nat)
    requires i < |next|
    ensures Keep(prev, MatchRun(prev, next, i), Sub(next, 0, i)) + Sub(next, i + MatchRun(prev, next, i), RunEnd(prev, next, i))
            == Sub(next, 0, RunEnd(prev, next, i))
  {
    KeepMatchRun(prev, next, i);
    SubConcat(next, 0, i + MatchRun(prev, next, i), RunEnd(prev, next, i));
  }

  /** The first generated run and the runs after it. */
  lemma {:induction false} RunsFromHead(prev: seq<int>, next: seq<int>, i: nat)
    requires i < |next|
    ensures RunsFrom(prev, next, i)
            == Run(MatchRun(prev, next, i), Sub(next, i + MatchRun(prev, next, i), RunEnd(prev, next, i)), RunsFrom(prev, next, RunEnd(prev, next, i)))
  {
  }

  /** If the runs from the end `j` of the run at `i` rebuild `next`, so do the runs from `i`. */
  lemma {:induction false} ApplyRunsStep(prev: seq<int>, next: seq<int>, i: nat, j: nat)
    requires i < |next| && j == RunEnd(prev, next, i)
    requires Apply(prev, RunsFrom(prev, next, j), Sub(next, 0, j)) == next
    ensures Apply(prev, RunsFrom(prev, next, i), Sub(next, 0, i)) == next
  {
    RunsFromHead(prev, next, i);
    RunRebuilds(prev, next, i);
  }

  /** The generated runs rebuild `next` from the part before `i`. */
  lemma {:induction false} ApplyRuns(prev: seq<int>, next: seq<int>, i: nat)
    requires i <= |next|
    ensures Apply(prev, RunsFrom(prev, next, i), Sub(next, 0, i)) == next
    decreases |next| - i
  {
    if i == |next| {
      SubAll(next);
    } else {
      var j := RunEnd(prev, next, i);
      ApplyRuns(prev, next, j);
      ApplyRunsStep(prev, next, i, j);
    }
  }

  /** A diff of `next` against `prev` in the server's format, with maximal runs. */
  function Diff(prev: seq<int>, next: seq<int>): seq<int>
  {
    Encode(RunsFrom(prev, next, 0))
  }

  /** Delta round trip: patching the diff of `next` against `prev` onto `prev` yields `next`. */
  lemma {:induction false} DiffRoundTrip(prev: seq<int>, next: seq<int>)
    ensures WellFormed(Diff(prev, next))
    ensures Patched(prev, Diff(prev, next)) == next
  {
    var runs := RunsFrom(prev, next, 0);
    LayoutEncode(runs);
    PatchLayout(prev, runs, Diff(prev, next), 0, []);
    ApplyRuns(prev, next, 0);
    assert Sub(next, 0, 0) == [];
  }
}

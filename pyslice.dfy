/** Python's list slicing `s[a:b]`, with negative bounds counted from the end and clipping. */
module PySlices {
  function Min(a: int, b: int): int { if a <= b then a else b }
  function Max(a: int, b: int): int { if a <= b then b else a }

  /** Where a slice bound lands: negative bounds count from the end, both are clipped to `[0, n]`. */
  function SliceBound(x: int, n: nat): (r: nat)
    ensures r <= n
    ensures 0 <= x ==> r == Min(x, n)
  {
    if x < 0 then Max(0, x + n) else Min(x, n)
  }

  /** The elements of `s` at positions `lo` up to `hi`, taken one at a time. */
  function Sub<T>(s: seq<T>, lo: nat, hi: nat): (r: seq<T>)
    requires lo <= hi <= |s|
    ensures |r| == hi - lo
    decreases hi - lo
  {
    if lo == hi then [] else [s[lo]] + Sub(s, lo + 1, hi)
  }

  lemma {:induction false} SubIsSlice<T>(s: seq<T>, lo: nat, hi: nat)
    requires lo <= hi <= |s|
    ensures Sub(s, lo, hi) == s[lo..hi]
    decreases hi - lo
  {
    if lo < hi {
      SubIsSlice(s, lo + 1, hi);
      assert s[lo..hi] == [s[lo]] + s[lo + 1..hi];
    }
  }

  /** Adjacent pieces of a sequence join up. */
  lemma {:induction false} SubConcat<T>(s: seq<T>, a: nat, b: nat, c: nat)
    requires a <= b <= c <= |s|
    ensures Sub(s, a, b) + Sub(s, b, c) == Sub(s, a, c)
    decreases b - a
  {
    if a < b {
      SubConcat(s, a + 1, b, c);
      assert [s[a]] + Sub(s, a + 1, b) + Sub(s, b, c) == [s[a]] + (Sub(s, a + 1, b) + Sub(s, b, c));
    }
  }

  /** Two sequences that agree on positions `a` up to `b` have the same piece there. */
  lemma {:induction false} SubAgree<T>(s: seq<T>, t: seq<T>, a: nat, b: nat)
    requires a <= b <= |s| && b <= |t|
    requires forall j :: a <= j < b ==> s[j] == t[j]
    ensures Sub(s, a, b) == Sub(t, a, b)
    decreases b - a
  {
    if a < b {
      SubAgree(s, t, a + 1, b);
    }
  }

  /** A piece of `t` is the same piece, shifted, of anything that ends with `t`. */
  lemma {:induction false} SubShift<T>(x: seq<T>, t: seq<T>, a: nat, b: nat)
    requires a <= b <= |t|
    ensures Sub(x + t, |x| + a, |x| + b) == Sub(t, a, b)
    decreases b - a
  {
    if a < b {
      SubShift(x, t, a + 1, b);
      assert (x + t)[|x| + a] == t[a];
    }
  }

  /** A piece of `t` is the same piece of anything that starts with `t`. */
  lemma {:induction false} SubPrefix<T>(t: seq<T>, y: seq<T>, a: nat, b: nat)
    requires a <= b <= |t|
    ensures Sub(t + y, a, b) == Sub(t, a, b)
    decreases b - a
  {
    if a < b {
      SubPrefix(t, y, a + 1, b);
      assert (t + y)[a] == t[a];
    }
  }

  /** The middle part of a concatenation. */
  lemma {:induction false} SubMiddle<T>(s: seq<T>, x: seq<T>, y: seq<T>, z: seq<T>)
    requires s == x + y + z
    ensures Sub(s, |x|, |x| + |y|) == y
  {
    SubIsSlice(s, |x|, |x| + |y|);
    assert s[|x|..|x| + |y|] == y;
  }

  /** The whole of `s`. */
  lemma {:induction false} SubAll<T>(s: seq<T>)
    ensures Sub(s, 0, |s|) == s
  {
    SubIsSlice(s, 0, |s|);
    assert s[0..|s|] == s;
  }

  /** `s[a:b]`. */
  function PySlice<T>(s: seq<T>, a: int, b: int): seq<T>
  {
    var lo, hi := SliceBound(a, |s|), SliceBound(b, |s|);
    if lo < hi then Sub(s, lo, hi) else []
  }

  /** Within the bounds of `s`, `s[a:b]` is the plain slice. */
  lemma {:induction false} PySliceInRange<T>(s: seq<T>, a: int, b: int)
    requires 0 <= a <= b <= |s|
    ensures PySlice(s, a, b) == Sub(s, a, b)
  {
  }

  /** With non-negative bounds, `s[a:b]` is the part of `s` between the clipped bounds. */
  lemma {:induction false} PySliceNonNegative<T>(s: seq<T>, a: int, b: int)
    requires 0 <= a
    ensures 0 <= b <= a ==> PySlice(s, a, b) == []
    ensures a <= b ==> PySlice(s, a, b) == s[Min(a, |s|)..Min(b, |s|)]
  {
    if a <= b && Min(a, |s|) < Min(b, |s|) {
      SubIsSlice(s, Min(a, |s|), Min(b, |s|));
    }
  }
}

/**
 * Grid topology of a row-major rectangular board: cell `i` sits in column
 * `i % width` and row `i / width`, cell 0 is the top-left corner. The four
 * neighbour lookups clip at the edges of the grid and are enumerated in the
 * fixed order right, up, left, down.
 */
module Grid {
  import opened Wrappers

  datatype Grid = Grid(width: int, height: int) {
    function Size(): int { width * height }
  }

  /** The cells of the grid. */
  predicate InGrid(g: Grid, i: int)
  {
    0 <= i < g.Size()
  }

  /** Multiplying by a positive number preserves order. */
  lemma {:induction false} MulMonotone(a: int, b: int, w: int)
    requires w > 0
    ensures a <= b ==> a * w <= b * w
    ensures a < b ==> a * w + w <= b * w
    decreases if a < b then b - a else 0
  {
    if a < b {
      MulMonotone(a, b - 1, w);
      assert (b - 1) * w == b * w - w;
    }
  }

  /** Euclidean division by a positive divisor is determined by quotient and remainder. */
  lemma {:induction false} DivModUnique(n: int, w: int, q: int, r: int)
    requires w > 0 && 0 <= r < w && n == q * w + r
    ensures n / w == q && n % w == r
  {
    var q', r' := n / w, n % w;
    assert n == q' * w + r';
    MulMonotone(q, q', w);
    MulMonotone(q', q, w);
  }

  /** A cell of the grid lies in one of its rows. */
  lemma {:induction false} RowInRange(g: Grid, i: int)
    requires g.width > 0 && InGrid(g, i)
    ensures 0 <= i / g.width < g.height
  {
    var y := i / g.width;
    assert i == y * g.width + i % g.width;
    MulMonotone(g.height, y, g.width);
    MulMonotone(y, -1, g.width);
  }

  /** Row-major coordinates of a cell: `(i % width, i // width)`. */
  function CoordToXY(g: Grid, i: int): (r: (int, int))
    requires g.width > 0
    ensures 0 <= r.0 < g.width
    ensures i == r.1 * g.width + r.0
    ensures InGrid(g, i) ==> 0 <= r.1 < g.height
  {
    if InGrid(g, i) then RowInRange(g, i); (i % g.width, i / g.width)
    else (i % g.width, i / g.width)
  }

  /** The cell at column `x` and row `y`. */
  function XYToCoord(g: Grid, x: int, y: int): int
  {
    y * g.width + x
  }

  lemma {:induction false} CoordRoundTrip(g: Grid, x: int, y: int)
    requires g.width > 0 && 0 <= x < g.width
    ensures CoordToXY(g, XYToCoord(g, x, y)) == (x, y)
    ensures 0 <= y < g.height ==> InGrid(g, XYToCoord(g, x, y))
  {
    DivModUnique(XYToCoord(g, x, y), g.width, y, x);
    MulMonotone(y, g.height - 1, g.width);
    MulMonotone(-1, y, g.width);
  }

  /** A column of the grid and a row give a cell of the grid exactly when the row is one of the grid's. */
  lemma {:induction false} XYInGrid(g: Grid, x: int, y: int)
    requires g.width > 0 && 0 <= x < g.width
    ensures InGrid(g, XYToCoord(g, x, y)) <==> 0 <= y < g.height
  {
    if 0 <= y < g.height {
      CoordRoundTrip(g, x, y);
    } else if y < 0 {
      MulMonotone(y, -1, g.width);
    } else {
      MulMonotone(g.height, y, g.width);
    }
  }

  /** The cell to the right, or None on the last column. */
  function Right(g: Grid, i: int): Option<int>
    requires g.width > 0
  {
    if i % g.width == g.width - 1 then None else Some(i + 1)
  }

  /** The cell to the left, or None on the first column. */
  function Left(g: Grid, i: int): Option<int>
    requires g.width > 0
  {
    if i % g.width == 0 then None else Some(i - 1)
  }

  /** The cell above, or None on the first row. */
  function Up(g: Grid, i: int): Option<int>
    requires g.width > 0
  {
    if i < g.width then None else Some(i - g.width)
  }

  /** The cell below, or None on the last row: the test is on the index, `i > width * (height - 1) - 1`. */
  function Down(g: Grid, i: int): Option<int>
    requires g.width > 0
  {
    if i > g.width * (g.height - 1) - 1 then None else Some(i + g.width)
  }

  /** A cell of the grid is on the last row exactly when the test of `Down` fires. */
  lemma {:induction false} LastRow(g: Grid, i: int)
    requires g.width > 0 && InGrid(g, i)
    ensures i > g.width * (g.height - 1) - 1 <==> i / g.width == g.height - 1
  {
    var w, h, y := g.width, g.height, i / g.width;
    assert i == y * w + i % w;
    RowInRange(g, i);
    if y < h - 1 {
      assert y * w <= (h - 2) * w;
    } else {
      assert y * w >= (h - 1) * w;
    }
  }

  // In coordinates, the four lookups move one column or one row and return None exactly at the matching edge.

  lemma {:induction false} RightCoords(g: Grid, i: int)
    requires g.width > 0
    ensures Right(g, i).None? <==> CoordToXY(g, i).0 == g.width - 1
    ensures Right(g, i).Some? ==> CoordToXY(g, Right(g, i).value) == (CoordToXY(g, i).0 + 1, CoordToXY(g, i).1)
  {
    if i % g.width != g.width - 1 {
      DivModUnique(i + 1, g.width, i / g.width, i % g.width + 1);
    }
  }

  lemma {:induction false} LeftCoords(g: Grid, i: int)
    requires g.width > 0
    ensures Left(g, i).None? <==> CoordToXY(g, i).0 == 0
    ensures Left(g, i).Some? ==> CoordToXY(g, Left(g, i).value) == (CoordToXY(g, i).0 - 1, CoordToXY(g, i).1)
  {
    if i % g.width != 0 {
      DivModUnique(i - 1, g.width, i / g.width, i % g.width - 1);
    }
  }

  /** For `Up` the edge test agrees with the row on non-negative indices. */
  lemma {:induction false} UpCoords(g: Grid, i: int)
    requires g.width > 0
    ensures 0 <= i ==> (Up(g, i).None? <==> CoordToXY(g, i).1 == 0)
    ensures Up(g, i).Some? ==> CoordToXY(g, Up(g, i).value) == (CoordToXY(g, i).0, CoordToXY(g, i).1 - 1)
  {
    if i < g.width {
      if 0 <= i {
        DivModUnique(i, g.width, 0, i);
      }
    } else {
      DivModUnique(i - g.width, g.width, i / g.width - 1, i % g.width);
    }
  }

  /** For `Down` the edge test agrees with the row on the cells of the grid. */
  lemma {:induction false} DownCoords(g: Grid, i: int)
    requires g.width > 0
    ensures InGrid(g, i) ==> (Down(g, i).None? <==> CoordToXY(g, i).1 == g.height - 1)
    ensures Down(g, i).Some? ==> CoordToXY(g, Down(g, i).value) == (CoordToXY(g, i).0, CoordToXY(g, i).1 + 1)
  {
    if InGrid(g, i) {
      LastRow(g, i);
    }
    if Down(g, i).Some? {
      DivModUnique(i + g.width, g.width, i / g.width + 1, i % g.width);
    }
  }

  /** The four directions, in the order the source enumerates them. */
  datatype Translation = ToRight | ToUp | ToLeft | ToDown

  /** `cardinal_translations()`: right, up, left, down. */
  function Translations(): seq<Translation>
  {
    [ToRight, ToUp, ToLeft, ToDown]
  }

  function Translate(g: Grid, t: Translation, i: int): Option<int>
    requires g.width > 0
  {
    match t
    case ToRight => Right(g, i)
    case ToUp => Up(g, i)
    case ToLeft => Left(g, i)
    case ToDown => Down(g, i)
  }

  /** `b` is what one of the four translations returns for `a`. */
  predicate IsNeighbour(g: Grid, a: int, b: int)
    requires g.width > 0
  {
    Right(g, a) == Some(b) || Up(g, a) == Some(b) || Left(g, a) == Some(b) || Down(g, a) == Some(b)
  }

  /** Two cells of the grid that differ by one in exactly one coordinate. */
  predicate Adjacent(g: Grid, a: int, b: int)
    requires g.width > 0
  {
    var (x1, y1) := CoordToXY(g, a);
    var (x2, y2) := CoordToXY(g, b);
    InGrid(g, a) && InGrid(g, b) &&
    ((x1 == x2 && (y1 - y2 == 1 || y2 - y1 == 1)) || (y1 == y2 && (x1 - x2 == 1 || x2 - x1 == 1)))
  }

  /** Every translation of a cell of the grid is a 4-adjacent cell of the grid. */
  lemma {:induction false} NeighbourAdjacent(g: Grid, a: int, b: int)
    requires g.width > 0 && InGrid(g, a) && IsNeighbour(g, a, b)
    ensures Adjacent(g, a, b)
  {
    RightCoords(g, a);
    UpCoords(g, a);
    LeftCoords(g, a);
    DownCoords(g, a);
    var (x2, y2) := CoordToXY(g, b);
    assert b == y2 * g.width + x2;
    if Down(g, a) == Some(b) {
      assert InGrid(g, b) by {
        var (x1, y1) := CoordToXY(g, a);
        assert y1 + 1 <= g.height - 1;
        CoordRoundTrip(g, x2, y2);
      }
    } else {
      CoordRoundTrip(g, x2, y2);
    }
  }

  /** Every 4-adjacent cell is reached by one of the four translations. */
  lemma {:induction false} AdjacentIsNeighbour(g: Grid, a: int, b: int)
    requires g.width > 0 && Adjacent(g, a, b)
    ensures IsNeighbour(g, a, b)
  {
    RightCoords(g, a);
    UpCoords(g, a);
    LeftCoords(g, a);
    DownCoords(g, a);
    var (x1, y1) := CoordToXY(g, a);
    var (x2, y2) := CoordToXY(g, b);
    if y1 == y2 && x2 == x1 + 1 {
      assert Right(g, a).Some?;
      CoordRoundTrip(g, x2, y2);
    } else if y1 == y2 && x2 == x1 - 1 {
      assert Left(g, a).Some?;
      CoordRoundTrip(g, x2, y2);
    } else if x1 == x2 && y2 == y1 - 1 {
      assert Up(g, a).Some?;
      CoordRoundTrip(g, x2, y2);
    } else {
      assert Down(g, a).Some?;
      CoordRoundTrip(g, x2, y2);
    }
  }

  /** On the grid, being a neighbour is symmetric: each translation has an inverse. */
  lemma {:induction false} NeighbourSymmetric(g: Grid, a: int, b: int)
    requires g.width > 0 && InGrid(g, a) && IsNeighbour(g, a, b)
    ensures InGrid(g, b) && IsNeighbour(g, b, a)
  {
    NeighbourAdjacent(g, a, b);
    AdjacentIsNeighbour(g, b, a);
  }

  /** What a translation of a cell of the grid returns is a neighbour on the grid. */
  lemma {:induction false} TranslateStays(g: Grid, t: Translation, a: int)
    requires g.width > 0 && InGrid(g, a)
    ensures Translate(g, t, a).Some? ==> InGrid(g, Translate(g, t, a).value) && IsNeighbour(g, a, Translate(g, t, a).value)
  {
    if Translate(g, t, a).Some? {
      var b := Translate(g, t, a).value;
      assert IsNeighbour(g, a, b) by {
        match t
        case ToRight =>
        case ToUp =>
        case ToLeft =>
        case ToDown =>
      }
      NeighbourAdjacent(g, a, b);
    }
  }

  /** No cell is its own neighbour. */
  lemma {:induction false} NeighbourIsOther(g: Grid, a: int, b: int)
    requires g.width > 0 && IsNeighbour(g, a, b)
    ensures a != b
  {
  }

  /** Tiles each of which neighbours the next. */
  predicate Route(g: Grid, p: seq<int>)
    requires g.width > 0
  {
    forall k :: 0 <= k < |p| - 1 ==> IsNeighbour(g, p[k], p[k + 1])
  }

  /** A route stays one when cut short or extended by a neighbour of its last tile. */
  lemma {:induction false} RouteGrows(g: Grid, p: seq<int>, n: int, x: int)
    requires g.width > 0 && Route(g, p) && 0 <= n <= |p|
    ensures Route(g, p[..n])
    ensures p != [] && IsNeighbour(g, p[|p| - 1], x) ==> Route(g, p + [x])
  {
    assert forall k :: 0 <= k < n ==> p[..n][k] == p[k];
    var q := p + [x];
    assert forall k :: 0 <= k < |p| ==> q[k] == p[k];
  }
}

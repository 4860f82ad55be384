/**
  The Bresenham line rasteriser of the r.pi library: a line between two raster
  positions is drawn into a flat row-major map of `int` cells, one cell per
  column of the line's major axis.
 */
module Draw {

  /** A raster position: `x` is the column, `y` the row. */
  datatype Point = Point(x: int, y: int)

  function Abs(n: int): (r: nat)
    ensures r == n || r == -n
  {
    if n < 0 then -n else n
  }

  /** Index of a raster position in a flat row-major map whose rows are `sx` cells long. */
  function Cell(p: Point, sx: int): int
  {
    p.y * sx + p.x
  }

  /**
    A line after normalisation: `steep` says that the coordinates were swapped
    (so `x` is the line's major axis), and `(x1, y1)` is the endpoint with the
    smaller major coordinate.
   */
  datatype Line = Line(steep: bool, x1: int, y1: int, x2: int, y2: int)
  {
    function DeltaX(): int { x2 - x1 }
    function DeltaY(): nat { Abs(y2 - y1) }
    function YStep(): int { if y1 < y2 then 1 else -1 }

    /** The shape normalisation guarantees: walking along x, y moves at most one step per column. */
    ghost predicate Normal()
    {
      x1 <= x2 && DeltaY() <= DeltaX()
    }

    /** The raster position of the normalised coordinates `(x, y)`: swapped back for a steep line. */
    function Plot(x: int, y: int): Point
    {
      if steep then Point(y, x) else Point(x, y)
    }

    /** The number of minor-axis steps taken to get from `y1` to `y`. */
    function Steps(y: int): int
    {
      if y1 < y2 then y - y1 else y1 - y
    }
  }

  /** The normalisation step of draw_line: swap the axes of a steep line, then order the endpoints by x. */
  function Normalize(x1: int, y1: int, x2: int, y2: int): (l: Line)
    ensures l.Normal()
    ensures l.steep <==> Abs(y2 - y1) > Abs(x2 - x1)
    ensures l.DeltaX() == if l.steep then Abs(y2 - y1) else Abs(x2 - x1)
    ensures l.DeltaY() == if l.steep then Abs(x2 - x1) else Abs(y2 - y1)
    ensures (l.Plot(l.x1, l.y1) == Point(x1, y1) && l.Plot(l.x2, l.y2) == Point(x2, y2))
         || (l.Plot(l.x1, l.y1) == Point(x2, y2) && l.Plot(l.x2, l.y2) == Point(x1, y1))
  {
    var steep := Abs(y2 - y1) > Abs(x2 - x1);
    var a1 := if steep then y1 else x1;
    var b1 := if steep then x1 else y1;
    var a2 := if steep then y2 else x2;
    var b2 := if steep then x2 else y2;
    if a1 > a2 then Line(steep, a2, b2, a1, b1) else Line(steep, a1, b1, a2, b2)
  }

  /** The error term of the walk stays in `[0, deltax)`, and at 0 for a single-column line. */
  ghost predicate ErrorInRange(deltax: int, error: int)
  {
    if deltax > 0 then 0 <= error < deltax else error == 0
  }

  /**
    The loop state `(x, y, error)` reached by the walk along `l`: the error term is
    in range, and it records exactly how far the line has drifted since the start,
    which has taken between 0 and DeltaY() minor steps while x is still on the line.
   */
  ghost predicate State(l: Line, x: int, y: int, error: int)
  {
    && l.Normal()
    && l.x1 <= x <= l.x2 + 1
    && ErrorInRange(l.DeltaX(), error)
    && error == l.DeltaX() / 2 + l.Steps(y) * l.DeltaX() - (x - l.x1) * l.DeltaY()
    && 0 <= l.Steps(y)
    && (x <= l.x2 ==> l.Steps(y) <= l.DeltaY())
  }

  /**
    The points the loop of draw_line plots from state `(x, y, error)` on, in raster
    coordinates: one per column `x .. l.x2`; after each point the error term drops
    by deltay and, when it goes negative, y takes one step and the error term is
    raised by deltax.
   */
  function Walk(l: Line, x: int, y: int, error: int): seq<Point>
    decreases l.x2 - x + 1
  {
    if x > l.x2 then []
    else [l.Plot(x, y)] + Walk(l, x + 1, NextY(l, y, error), NextError(l, error))
  }

  /** The minor coordinate after one column: one step when the lowered error term goes negative. */
  function NextY(l: Line, y: int, error: int): int
  {
    if error - l.DeltaY() < 0 then y + l.YStep() else y
  }

  /** The error term after one column: lowered by deltay, and raised by deltax when it went negative. */
  function NextError(l: Line, error: int): int
  {
    var e := error - l.DeltaY();
    if e < 0 then e + l.DeltaX() else e
  }

  /** The raster positions draw_line plots for the line from (x1, y1) to (x2, y2), in plotting order. */
  function LinePoints(x1: int, y1: int, x2: int, y2: int): seq<Point>
  {
    var l := Normalize(x1, y1, x2, y2);
    Walk(l, l.x1, l.y1, l.DeltaX() / 2)
  }

  /** Every point of `pts` has its cell inside a map of `n` cells. */
  ghost predicate Fits(pts: seq<Point>, sx: int, n: int)
  {
    forall i :: 0 <= i < |pts| ==> 0 <= Cell(pts[i], sx) < n
  }

  /** The map `m` after `val` was written to the cell of every point of `pts`. */
  function Paint(m: seq<int>, pts: seq<Point>, val: int, sx: int): (r: seq<int>)
    requires Fits(pts, sx, |m|)
    ensures |r| == |m|
  {
    if pts == [] then m
    else
      var front := pts[..|pts| - 1];
      assert forall i :: 0 <= i < |front| ==> front[i] == pts[i];
      Paint(m, front, val, sx)[Cell(pts[|pts| - 1], sx) := val]
  }

  /** What draw_point does to the map: only a width of 1 writes, and then only the cell of `p`. */
  function DrawnPoint(m: seq<int>, val: int, p: Point, sx: int, width: int): seq<int>
    requires width == 1 ==> 0 <= Cell(p, sx) < |m|
  {
    if width == 1 then m[Cell(p, sx) := val] else m
  }

  /** What a sequence of draw_point calls for `pts` does to the map. */
  function Drawn(m: seq<int>, pts: seq<Point>, val: int, sx: int, width: int): seq<int>
    requires width == 1 ==> Fits(pts, sx, |m|)
  {
    if width == 1 then Paint(m, pts, val, sx) else m
  }

  /** A painted cell holds `val` exactly when it is the cell of some point, and otherwise keeps its value. */
  lemma {:induction false} PaintAt(m: seq<int>, pts: seq<Point>, val: int, sx: int, k: int)
    requires Fits(pts, sx, |m|) && 0 <= k < |m|
    ensures Paint(m, pts, val, sx)[k] == if exists i :: 0 <= i < |pts| && Cell(pts[i], sx) == k then val else m[k]
    decreases |pts|
  {
    if pts != [] {
      var front := pts[..|pts| - 1];
      assert forall i :: 0 <= i < |front| ==> front[i] == pts[i];
      PaintAt(m, front, val, sx, k);
      if Cell(pts[|pts| - 1], sx) != k {
        if exists i :: 0 <= i < |pts| && Cell(pts[i], sx) == k {
          var i :| 0 <= i < |pts| && Cell(pts[i], sx) == k;
          assert i < |front| && Cell(front[i], sx) == k;
        }
      }
    }
  }

  /** Painting one more point writes its cell on top of what the earlier points painted. */
  lemma PaintSnoc(m: seq<int>, pts: seq<Point>, p: Point, val: int, sx: int)
    requires Fits(pts + [p], sx, |m|)
    ensures Fits(pts, sx, |m|) && 0 <= Cell(p, sx) < |m|
    ensures Paint(m, pts + [p], val, sx) == Paint(m, pts, val, sx)[Cell(p, sx) := val]
  {
    assert (pts + [p])[|pts|] == p;
    assert (pts + [p])[..|pts|] == pts;
    assert forall i :: 0 <= i < |pts| ==> pts[i] == (pts + [p])[i];
  }

  /** One more draw_point call extends what the earlier calls drew. */
  lemma DrawnSnoc(m: seq<int>, pts: seq<Point>, p: Point, val: int, sx: int, width: int)
    requires width == 1 ==> Fits(pts + [p], sx, |m|)
    ensures width == 1 ==> Fits(pts, sx, |m|) && 0 <= Cell(p, sx) < |m|
    ensures Drawn(m, pts + [p], val, sx, width) == DrawnPoint(Drawn(m, pts, val, sx, width), val, p, sx, width)
  {
    if width == 1 {
      PaintSnoc(m, pts, p, val, sx);
    }
  }

  // ---------------------------------------------------------------------------
  // The C functions

  /** swap: exchanges the two integers (the C version swaps two locals through pointers). */
  method Swap(a: int, b: int) returns (a': int, b': int)
    ensures a' == b && b' == a
  {
    var zw := a;
    a' := b;
    b' := zw;
  }

  /** draw_point: only a width of 1 writes anything, and then exactly the one cell of (x, y). */
  method DrawPoint(grid: array<int>, val: int, x: int, y: int, sx: int, sy: int, width: int)
    requires width == 1 ==> 0 <= y * sx + x < grid.Length
    modifies grid
    ensures grid[..] == DrawnPoint(old(grid[..]), val, Point(x, y), sx, width)
  {
    if width <= 0 {
      return;
    }
    if width == 1 {
      grid[y * sx + x] := val;
    } else {
    }
  }

  /** The first lines of draw_line: swap the coordinates of a steep line, then order the endpoints by x. */
  method NormalizeEndpoints(x1: int, y1: int, x2: int, y2: int) returns (steep: bool, a1: int, b1: int, a2: int, b2: int)
    ensures Line(steep, a1, b1, a2, b2) == Normalize(x1, y1, x2, y2)
  {
    steep := Abs(y2 - y1) > Abs(x2 - x1);
    a1, b1, a2, b2 := x1, y1, x2, y2;
    if steep {
      a1, b1 := Swap(a1, b1);
      a2, b2 := Swap(a2, b2);
    }
    if a1 > a2 {
      a1, a2 := Swap(a1, a2);
      b1, b2 := Swap(b1, b2);
    }
  }

  /**
    draw_line: normalises the endpoints, then walks the major axis with an error
    term, plotting one point per column through draw_point. The caller must keep
    the plotted cells inside the map; GridLineFits shows that endpoints inside an
    `sx` by `sy` grid are enough.
   */
  method DrawLine(grid: array<int>, val: int, x1: int, y1: int, x2: int, y2: int, sx: int, sy: int, width: int)
    requires width == 1 ==> Fits(LinePoints(x1, y1, x2, y2), sx, grid.Length)
    modifies grid
    ensures grid[..] == Drawn(old(grid[..]), LinePoints(x1, y1, x2, y2), val, sx, width)
  {
    var steep, a1, b1, a2, b2 := NormalizeEndpoints(x1, y1, x2, y2);
    ghost var l := Line(steep, a1, b1, a2, b2);
    ghost var all := LinePoints(x1, y1, x2, y2);

    var deltax := a2 - a1;
    var deltay := Abs(b2 - b1);
    var error := deltax / 2;
    var ystep := if b1 < b2 then 1 else -1;
    var y := b1;
    var x := a1;
    ghost var done: seq<Point> := [];
    while x <= a2
      invariant a1 <= x <= a2 + 1
      invariant all == done + Walk(l, x, y, error)
      invariant width == 1 ==> Fits(done, sx, grid.Length)
      invariant grid[..] == Drawn(old(grid[..]), done, val, sx, width)
      decreases a2 - x
    {
      ghost var p := l.Plot(x, y);
      ghost var y', e' := NextY(l, y, error), NextError(l, error);
      ColumnStep(old(grid[..]), all, done, l, x, y, error, val, sx, width);
      PlotColumn(grid, val, l, steep, x, y, sx, sy, width);
      done := done + [p];

      error := error - deltay;
      if error < 0 {
        y := y + ystep;
        error := error + deltax;
      }
      x := x + 1;
      assert y == y' && error == e';
    }
    assert Walk(l, x, y, error) == [];
    assert all == done;
  }

  /** The loop's call of draw_point: with the coordinates swapped back when the line is steep. */
  method PlotColumn(grid: array<int>, val: int, ghost l: Line, steep: bool, x: int, y: int, sx: int, sy: int, width: int)
    requires steep == l.steep && (width == 1 ==> 0 <= Cell(l.Plot(x, y), sx) < grid.Length)
    modifies grid
    ensures grid[..] == DrawnPoint(old(grid[..]), val, l.Plot(x, y), sx, width)
  {
    if steep {
      DrawPoint(grid, val, y, x, sx, sy, width);
    } else {
      DrawPoint(grid, val, x, y, sx, sy, width);
    }
  }

  // ---------------------------------------------------------------------------
  // Properties of the walk

  /** One column of the walk moves its first point from the points still to plot to those plotted. */
  lemma WalkAdvance(all: seq<Point>, done: seq<Point>, l: Line, x: int, y: int, error: int)
    requires all == done + Walk(l, x, y, error) && x <= l.x2
    ensures |done| < |all| && all[|done|] == l.Plot(x, y)
    ensures all == (done + [l.Plot(x, y)]) + Walk(l, x + 1, NextY(l, y, error), NextError(l, error))
  {
    var rest := Walk(l, x + 1, NextY(l, y, error), NextError(l, error));
    assert Walk(l, x, y, error) == [l.Plot(x, y)] + rest;
    assert done + ([l.Plot(x, y)] + rest) == (done + [l.Plot(x, y)]) + rest;
  }

  /** One column of the loop: its point is the next one of the line, it fits when the whole line does, and drawing it extends what was drawn by one point. */
  lemma ColumnStep(m: seq<int>, all: seq<Point>, done: seq<Point>, l: Line, x: int, y: int, error: int,
                   val: int, sx: int, width: int)
    requires all == done + Walk(l, x, y, error) && x <= l.x2
    requires width == 1 ==> Fits(all, sx, |m|)
    ensures all == (done + [l.Plot(x, y)]) + Walk(l, x + 1, NextY(l, y, error), NextError(l, error))
    ensures width == 1 ==> Fits(done + [l.Plot(x, y)], sx, |m|) && 0 <= Cell(l.Plot(x, y), sx) < |m|
    ensures width == 1 ==> Fits(done, sx, |m|)
    ensures Drawn(m, done + [l.Plot(x, y)], val, sx, width)
            == DrawnPoint(Drawn(m, done, val, sx, width), val, l.Plot(x, y), sx, width)
  {
    WalkAdvance(all, done, l, x, y, error);
    var p := l.Plot(x, y);
    if width == 1 {
      FitsPrefix(done + [p], Walk(l, x + 1, NextY(l, y, error), NextError(l, error)), sx, |m|);
    }
    DrawnSnoc(m, done, p, val, sx, width);
  }

  lemma FitsPrefix(a: seq<Point>, b: seq<Point>, sx: int, n: int)
    requires Fits(a + b, sx, n)
    ensures Fits(a, sx, n)
  {
    forall i | 0 <= i < |a|
      ensures 0 <= Cell(a[i], sx) < n
    {
      assert a[i] == (a + b)[i];
    }
  }

  /** The walk starts in a valid state: no steps taken, error term deltax / 2. */
  lemma StartState(l: Line)
    requires l.Normal()
    ensures State(l, l.x1, l.y1, l.DeltaX() / 2)
  {
  }

  lemma MulBelow(a: int, b: int, d: int)
    requires d > 0 && a * d < b * d
    ensures a < b
  {
  }

  lemma MulStep(a: int, d: int)
    ensures (a + 1) * d == a * d + d
  {
  }

  lemma MulLe(a: int, b: int, d: int)
    requires a <= b && d >= 0
    ensures a * d <= b * d
  {
  }

  /** One iteration of the loop keeps the state valid: in particular the error term stays in range. */
  lemma StateStep(l: Line, x: int, y: int, error: int)
    requires State(l, x, y, error) && x <= l.x2
    ensures State(l, x + 1, NextY(l, y, error), NextError(l, error))
  {
    var dx, dy, s := l.DeltaX(), l.DeltaY(), l.YStep();
    var e := error - dy;
    var k := l.Steps(y);
    var k' := if e < 0 then k + 1 else k;
    var y' := if e < 0 then y + s else y;
    var e' := if e < 0 then e + dx else e;
    assert l.Steps(y') == k';
    MulStep(k, dx);
    MulStep(x - l.x1, dy);
    assert e' == dx / 2 + k' * dx - (x + 1 - l.x1) * dy;
    if x + 1 <= l.x2 {
      // k' * dx = e' - dx/2 + (x + 1 - x1) * dy < dx + dx * dy
      MulLe(x + 1 - l.x1, dx, dy);
      assert dx * dy == dy * dx;
      MulStep(dy, dx);
      MulBelow(k', dy + 1, dx);
    }
  }

  /** The walk from a valid state plots exactly one point per column from x to x2. */
  lemma {:induction false} WalkLength(l: Line, x: int, y: int, error: int)
    requires x <= l.x2 + 1
    ensures |Walk(l, x, y, error)| == l.x2 - x + 1
    decreases l.x2 - x + 1
  {
    if x <= l.x2 {
      WalkLength(l, x + 1, NextY(l, y, error), NextError(l, error));
    }
  }

  /** The major coordinate of a point in normalised coordinates. */
  function Major(l: Line, p: Point): int
  {
    if l.steep then p.y else p.x
  }

  /** The minor coordinate of a point in normalised coordinates. */
  function Minor(l: Line, p: Point): int
  {
    if l.steep then p.x else p.y
  }

  /**
    From a valid state the k-th plotted point lies in column x + k, its minor
    coordinate lies between y1 and y2, and from one point to the next the minor
    coordinate changes by 0 or by ystep.
   */
  lemma {:induction false} WalkShape(l: Line, x: int, y: int, error: int)
    requires State(l, x, y, error)
    ensures var w := Walk(l, x, y, error);
            && (forall k :: 0 <= k < |w| ==> Major(l, w[k]) == x + k)
            && (forall k :: 0 <= k < |w| ==> 0 <= l.Steps(Minor(l, w[k])) <= l.DeltaY())
            && (forall k :: 0 < k < |w| ==> Minor(l, w[k]) - Minor(l, w[k - 1]) in {0, l.YStep()})
    decreases l.x2 - x + 1
  {
    var w := Walk(l, x, y, error);
    WalkColumns(l, x, y, error);
    if x <= l.x2 {
      var y', e' := NextY(l, y, error), NextError(l, error);
      StateStep(l, x, y, error);
      WalkShape(l, x + 1, y', e');
      var rest := Walk(l, x + 1, y', e');
      assert w == [l.Plot(x, y)] + rest;
      WalkLength(l, x + 1, y', e');
      if |rest| > 0 {
        assert Minor(l, rest[0]) == y';
      }
      forall k | 0 < k < |w|
        ensures 0 <= l.Steps(Minor(l, w[k])) <= l.DeltaY()
      {
        assert w[k] == rest[k - 1];
      }
      forall k | 0 < k < |w|
        ensures Minor(l, w[k]) - Minor(l, w[k - 1]) in {0, l.YStep()}
      {
        assert w[k] == rest[k - 1];
      }
    }
  }

  /** The k-th point of the walk from column x lies in column x + k. */
  lemma {:induction false} WalkColumns(l: Line, x: int, y: int, error: int)
    ensures forall k :: 0 <= k < |Walk(l, x, y, error)| ==> Major(l, Walk(l, x, y, error)[k]) == x + k
    decreases l.x2 - x + 1
  {
    var w := Walk(l, x, y, error);
    if x <= l.x2 {
      var y', e' := NextY(l, y, error), NextError(l, error);
      var rest := Walk(l, x + 1, y', e');
      WalkColumns(l, x + 1, y', e');
      assert w == [l.Plot(x, y)] + rest;
      forall k | 0 < k < |w|
        ensures Major(l, w[k]) == x + k
      {
        assert w[k] == rest[k - 1];
      }
    }
  }

  lemma ExactSteps(k: int, dy: int, dx: int, d: int)
    requires dx > 0 && -dx < d < dx && (k - dy) * dx == d
    ensures k == dy
  {
    if k > dy {
      MulLe(1, k - dy, dx);
    } else if k < dy {
      MulLe(1, dy - k, dx);
    }
  }

  /** In the last column the walk has taken exactly DeltaY() minor steps, so y is y2. */
  lemma EndState(l: Line, y: int, error: int)
    requires State(l, l.x2, y, error)
    ensures y == l.y2
  {
    var dx, dy := l.DeltaX(), l.DeltaY();
    var k := l.Steps(y);
    if dx > 0 {
      assert (k - dy) * dx == error - dx / 2 by {
        assert (k - dy) * dx == k * dx - dy * dx;
        assert (l.x2 - l.x1) * dy == dy * dx;
      }
      ExactSteps(k, dy, dx, error - dx / 2);
    }
  }

  /** From a valid state the last plotted point is the normalised endpoint (x2, y2). */
  lemma {:induction false} WalkLast(l: Line, x: int, y: int, error: int)
    requires State(l, x, y, error) && x <= l.x2
    ensures var w := Walk(l, x, y, error); |w| > 0 && w[|w| - 1] == l.Plot(l.x2, l.y2)
    decreases l.x2 - x
  {
    var y', e' := NextY(l, y, error), NextError(l, error);
    var rest := Walk(l, x + 1, y', e');
    assert Walk(l, x, y, error) == [l.Plot(x, y)] + rest;
    StateStep(l, x, y, error);
    if x < l.x2 {
      WalkLast(l, x + 1, y', e');
    } else {
      assert rest == [];
      EndState(l, y, error);
    }
  }

  // ---------------------------------------------------------------------------
  // Properties of draw_line

  /** draw_line plots deltax + 1 points, one per major coordinate from x1 to x2, in that order. */
  lemma LineColumns(x1: int, y1: int, x2: int, y2: int)
    ensures var l := Normalize(x1, y1, x2, y2);
            var pts := LinePoints(x1, y1, x2, y2);
            && |pts| == l.DeltaX() + 1
            && (forall k :: 0 <= k < |pts| ==> Major(l, pts[k]) == l.x1 + k)
            && (forall k :: 0 < k < |pts| ==> Minor(l, pts[k]) - Minor(l, pts[k - 1]) in {0, l.YStep()})
  {
    var l := Normalize(x1, y1, x2, y2);
    StartState(l);
    WalkLength(l, l.x1, l.y1, l.DeltaX() / 2);
    WalkShape(l, l.x1, l.y1, l.DeltaX() / 2);
  }

  /** The first and the last plotted points are the two endpoints of the line. */
  lemma LineEndpoints(x1: int, y1: int, x2: int, y2: int)
    ensures var pts := LinePoints(x1, y1, x2, y2);
            && |pts| > 0
            && ((pts[0] == Point(x1, y1) && pts[|pts| - 1] == Point(x2, y2))
             || (pts[0] == Point(x2, y2) && pts[|pts| - 1] == Point(x1, y1)))
  {
    var l := Normalize(x1, y1, x2, y2);
    StartState(l);
    WalkLast(l, l.x1, l.y1, l.DeltaX() / 2);
  }

  function Min(a: int, b: int): int { if a < b then a else b }
  function Max(a: int, b: int): int { if a < b then b else a }

  /** Every plotted point lies inside the bounding box of the two endpoints. */
  lemma LineInBox(x1: int, y1: int, x2: int, y2: int)
    ensures forall p :: p in LinePoints(x1, y1, x2, y2) ==>
              Min(x1, x2) <= p.x <= Max(x1, x2) && Min(y1, y2) <= p.y <= Max(y1, y2)
  {
    var l := Normalize(x1, y1, x2, y2);
    var pts := LinePoints(x1, y1, x2, y2);
    StartState(l);
    WalkLength(l, l.x1, l.y1, l.DeltaX() / 2);
    WalkShape(l, l.x1, l.y1, l.DeltaX() / 2);
    forall p | p in pts
      ensures Min(x1, x2) <= p.x <= Max(x1, x2) && Min(y1, y2) <= p.y <= Max(y1, y2)
    {
      var k :| 0 <= k < |pts| && pts[k] == p;
      var m := Minor(l, p);
      assert l.x1 <= Major(l, p) <= l.x2;
      assert Min(l.y1, l.y2) <= m <= Max(l.y1, l.y2) by {
        if l.y1 < l.y2 { assert 0 <= m - l.y1 <= l.y2 - l.y1; }
        else { assert 0 <= l.y1 - m <= l.y1 - l.y2; }
      }
    }
  }

  lemma CellInGrid(p: Point, sx: int, sy: int)
    requires 0 <= p.x < sx && 0 <= p.y < sy
    ensures 0 <= Cell(p, sx) < sx * sy
  {
    assert p.y * sx <= (sy - 1) * sx;
  }

  /** With both endpoints inside an `sx` by `sy` grid, every cell draw_line writes is inside the map. */
  lemma GridLineFits(x1: int, y1: int, x2: int, y2: int, sx: int, sy: int, n: int)
    requires 0 <= x1 < sx && 0 <= x2 < sx && 0 <= y1 < sy && 0 <= y2 < sy && sx * sy <= n
    ensures Fits(LinePoints(x1, y1, x2, y2), sx, n)
  {
    var pts := LinePoints(x1, y1, x2, y2);
    LineInBox(x1, y1, x2, y2);
    forall i | 0 <= i < |pts|
      ensures 0 <= Cell(pts[i], sx) < n
    {
      assert pts[i] in pts;
      CellInGrid(pts[i], sx, sy);
    }
  }

  /**
    Drawing from A to B plots the same points, in the same order, as drawing from
    B to A, so both write the same cells.
   */
  lemma LineSymmetric(x1: int, y1: int, x2: int, y2: int)
    ensures LinePoints(x1, y1, x2, y2) == LinePoints(x2, y2, x1, y1)
  {
    var l := Normalize(x1, y1, x2, y2);
    var l' := Normalize(x2, y2, x1, y1);
    assert l.x1 == l.x2 ==> l.y1 == l.y2;
    assert l == l';
  }

  /**
    What a drawn line does to the map: a cell becomes `val` exactly when it is the
    cell of one of the line's points, and with a width other than 1 nothing changes.
   */
  lemma DrawnCells(m: seq<int>, val: int, x1: int, y1: int, x2: int, y2: int, sx: int, k: int)
    requires Fits(LinePoints(x1, y1, x2, y2), sx, |m|) && 0 <= k < |m|
    ensures var r := Paint(m, LinePoints(x1, y1, x2, y2), val, sx);
            (exists p :: p in LinePoints(x1, y1, x2, y2) && Cell(p, sx) == k) ==> r[k] == val
    ensures var r := Paint(m, LinePoints(x1, y1, x2, y2), val, sx);
            (forall p :: p in LinePoints(x1, y1, x2, y2) ==> Cell(p, sx) != k) ==> r[k] == m[k]
  {
    var pts := LinePoints(x1, y1, x2, y2);
    PaintAt(m, pts, val, sx, k);
    if p :| p in pts && Cell(p, sx) == k {
      var i :| 0 <= i < |pts| && pts[i] == p;
      assert Cell(pts[i], sx) == k;
    }
    if i :| 0 <= i < |pts| && Cell(pts[i], sx) == k {
      assert pts[i] in pts;
    }
  }
}

/**
  The buffer bookkeeping of r.pi.prob.mw: the number of moving-window
  positions, the parameter defaults, the keyval map, the mask, the fragment
  labels written into the map, and the output rows that centre the window
  results in the raster. Raster rows arrive as sequences (what
  G_get_c_raster_row fills in); the buffers the module allocates are arrays
  of sx*sy cells in row-major order.
 */
module ProbMw {
  import opened Wrappers

  // ---------------------------------------------------------------------------
  // Row-major grids

  /** A raster read row by row: sy rows of sx cells each. */
  ghost predicate Grid(rows: seq<seq<int>>, sx: nat)
  {
    forall r :: 0 <= r < |rows| ==> |rows[r]| == sx
  }

  /** The flat index of the cell in row r and column c lies in the sx*sy buffer, and row and column are recovered from it. */
  lemma CellIndex(r: nat, c: nat, sx: nat, sy: nat)
    requires r < sy && c < sx
    ensures r * sx + c < sx * sy
    ensures (r * sx + c) / sx == r && (r * sx + c) % sx == c
  {
    assert r * sx + c < (r + 1) * sx;
    assert (r + 1) * sx <= sy * sx by {
      MulMono(r + 1, sy, sx);
    }
    DivModUnique(r * sx + c, sx, r, c);
  }

  lemma MulMono(a: nat, b: nat, k: nat)
    requires a <= b
    ensures a * k <= b * k
  {
  }

  lemma DivModUnique(n: nat, d: nat, q: nat, m: nat)
    requires m < d && n == q * d + m
    ensures n / d == q && n % d == m
  {
    var q' := n / d;
    var m' := n % d;
    assert n == q' * d + m';
    if q' < q {
      assert (q' + 1) * d <= q * d by { MulMono(q' + 1, q, d); }
    } else if q < q' {
      assert (q + 1) * d <= q' * d by { MulMono(q + 1, q', d); }
    }
  }

  /** A flat index below sx*sy names a row below sy. */
  lemma RowOfIndex(i: nat, sx: nat, sy: nat)
    requires i < sx * sy
    ensures sx > 0 && i / sx < sy && i % sx < sx
  {
    assert (i / sx) * sx <= i;
    MulLess(i / sx, sy, sx);
  }

  lemma MulLess(a: nat, b: nat, k: nat)
    requires a * k < b * k
    ensures a < b
  {
  }

  /** Row r of an sx-wide grid of sy rows ends within the buffer, and the next row starts at base + sx. */
  lemma RowFits(r: nat, sx: nat, sy: nat, base: nat)
    requires r < sy && base == r * sx
    ensures base + sx <= sx * sy && base + sx == (r + 1) * sx
  {
    MulMono(r + 1, sy, sx);
  }

  /** The cell in row r and column c sits at base + c, where the row starts at base. */
  lemma AtCell(rows: seq<seq<int>>, sx: nat, r: nat, c: nat, base: nat)
    requires Grid(rows, sx) && r < |rows| && c < sx && base == r * sx
    ensures base + c < sx * |rows| && At(rows, sx, base + c) == rows[r][c]
  {
    CellIndex(r, c, sx, |rows|);
  }

  /** The input value of the cell with flat index i. */
  function At(rows: seq<seq<int>>, sx: nat, i: nat): int
    requires Grid(rows, sx) && i < sx * |rows|
  {
    RowOfIndex(i, sx, |rows|);
    rows[i / sx][i % sx]
  }

  // ---------------------------------------------------------------------------
  // Parameters

  /** The command-line values the module works with; sscanf has already converted the answers. */
  datatype Settings = Settings(size: int, distance: real)

  /** An omitted `size` is 0 (a single window over the whole region) and an omitted `distance` is 1. */
  function ReadSettings(size: Option<int>, distance: Option<real>): (s: Settings)
    ensures size.Some? ==> s.size == size.value
    ensures size.None? ==> s.size == 0
    ensures distance.Some? ==> s.distance == distance.value
    ensures distance.None? ==> s.distance == 1.0
  {
    Settings(if size.Some? then size.value else 0, if distance.Some? then distance.value else 1.0)
  }

  /** The number of window positions along an axis of s cells: s - size + 1 for a positive size, otherwise 1. */
  function WindowCount(size: int, s: int): int
  {
    if size > 0 then s - size + 1 else 1
  }

  /** A window of size cells starting at cell i of an axis of s cells lies inside the axis. */
  predicate WindowFits(i: int, size: int, s: int)
  {
    0 <= i && i + size <= s
  }

  /** A window of 1 <= size <= s cells can start at exactly the positions below WindowCount(size, s), of which there are between 1 and s. */
  lemma WindowStarts(size: int, s: int)
    requires 1 <= size <= s
    ensures 1 <= WindowCount(size, s) <= s
    ensures forall i :: WindowFits(i, size, s) <==> 0 <= i < WindowCount(size, s)
  {
  }

  /** Without a size every axis has one window position, so the results are one value. */
  lemma DefaultIsOneWindow(distance: Option<real>, sx: int, sy: int)
    ensures var s := ReadSettings(None, distance);
            WindowCount(s.size, sx) == 1 && WindowCount(s.size, sy) == 1 && WindowCount(s.size, sx) * WindowCount(s.size, sy) == 1
  {
  }

  // ---------------------------------------------------------------------------
  // The map and the mask

  /**
    The read loop: every cell whose input value equals keyval is set to 1; no
    other cell of the buffer (left as the allocator returned it) is written.
   */
  method ReadMap(raster: array<int>, input: seq<seq<int>>, sx: nat, keyval: int)
    requires Grid(input, sx) && raster.Length == sx * |input|
    modifies raster
    ensures forall i :: 0 <= i < raster.Length ==>
              raster[i] == if At(input, sx, i) == keyval then 1 else old(raster[i])
  {
    var sy := |input|;
    ghost var orig := raster[..];
    var row := 0;
    var base := 0;
    while row < sy
      invariant 0 <= row <= sy && base == row * sx && base <= raster.Length
      invariant forall i :: 0 <= i < base ==> raster[i] == if At(input, sx, i) == keyval then 1 else orig[i]
      invariant forall i :: base <= i < raster.Length ==> raster[i] == orig[i]
    {
      MarkRow(raster, input, sx, keyval, row, base);
      base := base + sx;
      row := row + 1;
    }
  }

  /** One row of the read loop: the cells of row `row` (starting at `base`) that hold keyval become 1; no other cell changes. */
  method MarkRow(raster: array<int>, input: seq<seq<int>>, sx: nat, keyval: int, row: nat, base: nat)
    requires Grid(input, sx) && raster.Length == sx * |input| && row < |input| && base == row * sx
    modifies raster
    ensures base + sx <= raster.Length && base + sx == (row + 1) * sx
    ensures forall i :: 0 <= i < raster.Length && !(base <= i < base + sx) ==> raster[i] == old(raster[i])
    ensures forall i :: base <= i < base + sx ==>
              raster[i] == if At(input, sx, i) == keyval then 1 else old(raster[i])
  {
    RowFits(row, sx, |input|, base);
    ghost var orig := raster[..];
    var col := 0;
    while col < sx
      invariant 0 <= col <= sx
      invariant forall i :: base <= i < base + col ==> raster[i] == if At(input, sx, i) == keyval then 1 else orig[i]
      invariant forall i :: 0 <= i < raster.Length && !(base <= i < base + col) ==> raster[i] == orig[i]
    {
      AtCell(input, sx, row, col, base);
      if input[row][col] == keyval {
        raster[base + col] := 1;
      }
      col := col + 1;
    }
  }

  /** One row of the mask: the cells of row `row` (starting at `base`) take the mask map's values; no other cell changes. */
  method CopyRow(mask: array<int>, rows: seq<seq<int>>, sx: nat, row: nat, base: nat)
    requires Grid(rows, sx) && mask.Length == sx * |rows| && row < |rows| && base == row * sx
    modifies mask
    ensures base + sx <= mask.Length && base + sx == (row + 1) * sx
    ensures forall i :: 0 <= i < mask.Length && !(base <= i < base + sx) ==> mask[i] == old(mask[i])
    ensures forall i :: base <= i < base + sx ==> mask[i] == At(rows, sx, i)
  {
    RowFits(row, sx, |rows|, base);
    ghost var orig := mask[..];
    var col := 0;
    while col < sx
      invariant 0 <= col <= sx
      invariant forall i :: base <= i < base + col ==> mask[i] == At(rows, sx, i)
      invariant forall i :: 0 <= i < mask.Length && !(base <= i < base + col) ==> mask[i] == orig[i]
    {
      AtCell(rows, sx, row, col, base);
      mask[base + col] := rows[row][col];
      col := col + 1;
    }
  }

  /** The mask: the mask map's values when one is given (row by row), otherwise 1 in each of the sx*sy cells. */
  method ReadMask(mask: array<int>, maskRows: Option<seq<seq<int>>>, sx: nat, sy: nat)
    requires mask.Length == sx * sy
    requires maskRows.Some? ==> Grid(maskRows.value, sx) && |maskRows.value| == sy
    modifies mask
    ensures forall i :: 0 <= i < mask.Length ==>
              mask[i] == if maskRows.Some? then At(maskRows.value, sx, i) else 1
  {
    if maskRows.Some? {
      var rows := maskRows.value;
      var row := 0;
      var base := 0;
      while row < sy
        invariant 0 <= row <= sy && base == row * sx && base <= mask.Length
        invariant forall i :: 0 <= i < base ==> mask[i] == At(rows, sx, i)
      {
        CopyRow(mask, rows, sx, row, base);
        base := base + sx;
        row := row + 1;
      }
    } else {
      var i := 0;
      while i < sx * sy
        invariant 0 <= i <= sx * sy
        invariant forall j :: 0 <= j < i ==> mask[j] == 1
      {
        mask[i] := 1;
        i := i + 1;
      }
    }
  }

  // ---------------------------------------------------------------------------
  // Fragment labels

  /** A cell position: column x, row y. */
  datatype Coords = Coords(x: int, y: int)

  predicate InGrid(c: Coords, sx: nat, sy: nat)
  {
    0 <= c.x < sx && 0 <= c.y < sy
  }

  /** The flat index `y * sx + x` of a cell position. */
  function Offset(c: Coords, sx: nat): int
  {
    c.y * sx + c.x
  }

  /**
    The fragments as writeFragments leaves them: the cells of fragment i are
    cells[bounds[i]..bounds[i + 1]], for i below fragcount = |bounds| - 1.
   */
  ghost predicate Fragments(cells: seq<Coords>, bounds: seq<nat>, sx: nat, sy: nat)
  {
    && |bounds| > 0
    && (forall i :: 0 <= i < |bounds| ==> bounds[i] <= |cells|)
    && (forall p :: 0 <= p < |cells| ==> InGrid(cells[p], sx, sy))
  }

  /** Some cell among cells[lo..hi] lies at flat index idx. */
  ghost predicate Covers(cells: seq<Coords>, lo: nat, hi: nat, sx: nat, idx: int)
  {
    exists p :: lo <= p < hi && p < |cells| && Offset(cells[p], sx) == idx
  }

  /** The label of cell idx after the first k fragments were written: the last of them that covers it, or -1. */
  ghost function Label(cells: seq<Coords>, bounds: seq<nat>, sx: nat, k: nat, idx: int): int
    requires k < |bounds|
  {
    if k == 0 then -1
    else if Covers(cells, bounds[k - 1], bounds[k], sx, idx) then k - 1
    else Label(cells, bounds, sx, k - 1, idx)
  }

  /** Fragment i covers cell idx. */
  ghost predicate InFragment(cells: seq<Coords>, bounds: seq<nat>, sx: nat, i: nat, idx: int)
    requires i + 1 < |bounds|
  {
    Covers(cells, bounds[i], bounds[i + 1], sx, idx)
  }

  /** The label after k fragments is -1 or one of their numbers, and it is -1 exactly when none of them covers the cell. */
  lemma {:induction false} LabelNone(cells: seq<Coords>, bounds: seq<nat>, sx: nat, k: nat, idx: int)
    requires k < |bounds|
    ensures -1 <= Label(cells, bounds, sx, k, idx) < k
    ensures Label(cells, bounds, sx, k, idx) == -1 <==>
              forall i :: 0 <= i < k ==> !InFragment(cells, bounds, sx, i, idx)
  {
    if k > 0 {
      LabelNone(cells, bounds, sx, k - 1, idx);
      if !InFragment(cells, bounds, sx, k - 1, idx) {
        assert Label(cells, bounds, sx, k, idx) == Label(cells, bounds, sx, k - 1, idx);
        assert (forall i :: 0 <= i < k ==> !InFragment(cells, bounds, sx, i, idx)) <==>
               (forall i :: 0 <= i < k - 1 ==> !InFragment(cells, bounds, sx, i, idx));
      }
    }
  }

  /** The label after k fragments is i exactly when fragment i covers the cell and no later one of them does: the later fragment wins. */
  lemma {:induction false} LabelIs(cells: seq<Coords>, bounds: seq<nat>, sx: nat, k: nat, idx: int, i: nat)
    requires i < k < |bounds|
    ensures Label(cells, bounds, sx, k, idx) == i <==>
              InFragment(cells, bounds, sx, i, idx) && forall j :: i < j < k ==> !InFragment(cells, bounds, sx, j, idx)
  {
    if i == k - 1 {
      LabelNone(cells, bounds, sx, k - 1, idx);
    } else if InFragment(cells, bounds, sx, k - 1, idx) {
      assert i < k - 1 < k;
    } else {
      LabelIs(cells, bounds, sx, k - 1, idx, i);
    }
  }

  /** Extending the range by one cell covers that cell too. */
  lemma CoversStep(cells: seq<Coords>, lo: nat, p: nat, sx: nat, idx: int)
    requires lo <= p < |cells|
    ensures Covers(cells, lo, p + 1, sx, idx) <==> Covers(cells, lo, p, sx, idx) || Offset(cells[p], sx) == idx
  {
    if Offset(cells[p], sx) == idx {
      assert lo <= p < p + 1 && Offset(cells[p], sx) == idx;
    }
    if Covers(cells, lo, p + 1, sx, idx) {
      var q :| lo <= q < p + 1 && q < |cells| && Offset(cells[q], sx) == idx;
      if q < p {
        assert Covers(cells, lo, p, sx, idx);
      }
    }
  }

  /**
    The labelling loops: every cell is first set to -1, then each fragment in
    turn writes its number into the cells it covers, so a later fragment
    overwrites an earlier one.
   */
  method LabelFragments(raster: array<int>, cells: seq<Coords>, bounds: seq<nat>, sx: nat, sy: nat)
    requires raster.Length == sx * sy && Fragments(cells, bounds, sx, sy)
    modifies raster
    ensures forall idx :: 0 <= idx < raster.Length ==> raster[idx] == Label(cells, bounds, sx, |bounds| - 1, idx)
  {
    var i := 0;
    while i < sx * sy
      invariant 0 <= i <= sx * sy
      invariant forall j :: 0 <= j < i ==> raster[j] == -1
    {
      raster[i] := -1;
      i := i + 1;
    }
    var fragcount := |bounds| - 1;
    var k := 0;
    while k < fragcount
      invariant 0 <= k <= fragcount
      invariant forall idx :: 0 <= idx < raster.Length ==> raster[idx] == Label(cells, bounds, sx, k, idx)
    {
      var p := bounds[k];
      while p < bounds[k + 1]
        invariant bounds[k] <= p && (p <= bounds[k + 1] || p == bounds[k])
        invariant forall idx :: 0 <= idx < raster.Length ==>
                    raster[idx] == if Covers(cells, bounds[k], p, sx, idx) then k else Label(cells, bounds, sx, k, idx)
      {
        var c := cells[p];
        assert InGrid(c, sx, sy);
        CellIndex(c.y, c.x, sx, sy);
        raster[c.y * sx + c.x] := k;
        forall idx | 0 <= idx < raster.Length
          ensures Covers(cells, bounds[k], p + 1, sx, idx) <==> Covers(cells, bounds[k], p, sx, idx) || Offset(c, sx) == idx
        {
          CoversStep(cells, bounds[k], p, sx, idx);
        }
        p := p + 1;
      }
      forall idx | 0 <= idx < raster.Length
        ensures Covers(cells, bounds[k], p, sx, idx) == Covers(cells, bounds[k], bounds[k + 1], sx, idx)
      {
        if p != bounds[k + 1] {
          assert !Covers(cells, bounds[k], p, sx, idx);
          assert !Covers(cells, bounds[k], bounds[k + 1], sx, idx);
        }
      }
      k := k + 1;
    }
  }

  // ---------------------------------------------------------------------------
  // Output

  /** What the module produces: output raster rows (None is the null value), or, with no window size, the single result it prints. */
  datatype Output = Raster(rows: seq<seq<Option<real>>>) | Single(value: real)

  /**
    The output cell in row `row` and column `col`: the result of the window
    whose top-left corner is size/2 cells up and left of it, where there is
    such a window, and null elsewhere.
   */
  function Centred(values: seq<real>, size: int, sx: nat, sy: nat, row: int, col: int): (v: Option<real>)
    requires size >= 1 && Enough(values, size, sx, sy)
  {
    var h := size / 2;
    var nx := WindowCount(size, sx);
    var ny := WindowCount(size, sy);
    if h <= row < ny + h && h <= col < nx + h then
      CellIndex(row - h, col - h, nx, ny);
      Some(values[(row - h) * nx + (col - h)])
    else None
  }

  /**
    The values hold a result for every window: nx * ny of them, where nx and ny
    are the window counts. When a window is wider or taller than the map a count
    is 0 or negative, there is no window, and nothing is read.
   */
  predicate Enough(values: seq<real>, size: int, sx: int, sy: int)
  {
    WindowCount(size, sx) <= 0 || WindowCount(size, sy) <= 0 || |values| >= WindowCount(size, sx) * WindowCount(size, sy)
  }

  /** A window larger than the map along either axis leaves every output cell null. */
  lemma OversizeAllNull(values: seq<real>, size: int, sx: nat, sy: nat, row: int, col: int)
    requires size >= 1 && (size > sx || size > sy)
    ensures Enough(values, size, sx, sy)
    ensures Centred(values, size, sx, sy, row, col) == None
  {
  }

  /** Every window result lands in the output, at its window's centre offset, which is inside the sx by sy raster. */
  lemma CentredPlacement(values: seq<real>, size: int, sx: nat, sy: nat, i: nat, j: nat)
    requires size >= 1 && Enough(values, size, sx, sy)
    requires i < WindowCount(size, sx) && j < WindowCount(size, sy)
    ensures var h := size / 2;
            var w := j * WindowCount(size, sx) + i;
            && i + h < sx && j + h < sy && w < |values|
            && Centred(values, size, sx, sy, j + h, i + h) == Some(values[w])
  {
    var h := size / 2;
    var nx := WindowCount(size, sx);
    var ny := WindowCount(size, sy);
    CellIndex(j, i, nx, ny);
    Half(size);
    assert i + h < nx + h <= sx;
    assert j + h < ny + h <= sy;
    assert (j + h) - h == j && (i + h) - h == i;
  }

  lemma Half(size: int)
    requires size >= 1
    ensures 0 <= size / 2 < size
  {
  }

  /** Two output cells that show a value show the results of different windows, so no result is shown twice. */
  lemma CentredDistinct(values: seq<real>, size: int, sx: nat, sy: nat, r1: int, c1: int, r2: int, c2: int)
    requires size >= 1 && Enough(values, size, sx, sy)
    requires Centred(values, size, sx, sy, r1, c1).Some? && Centred(values, size, sx, sy, r2, c2).Some?
    requires r1 != r2 || c1 != c2
    ensures var h := size / 2;
            var nx := WindowCount(size, sx);
            (r1 - h) * nx + (c1 - h) != (r2 - h) * nx + (c2 - h)
  {
    var h := size / 2;
    var nx := WindowCount(size, sx);
    var ny := WindowCount(size, sy);
    CellIndex(r1 - h, c1 - h, nx, ny);
    CellIndex(r2 - h, c2 - h, nx, ny);
  }

  /**
    The end of the module. With a positive size each of the sy rows starts
    all null (G_set_d_null_value) and, inside the band of rows that have a
    window, receives the results of that window row shifted size/2 columns
    right; otherwise the one result, values[0], is printed.
   */
  method WriteOutput(values: seq<real>, sx: nat, sy: nat, size: int) returns (out: Output)
    requires size > 0 ==> Enough(values, size, sx, sy)
    requires size <= 0 ==> |values| >= 1
    ensures size <= 0 ==> out == Single(values[0])
    ensures size > 0 ==> out.Raster? && |out.rows| == sy
    ensures size > 0 ==> forall row :: 0 <= row < sy ==>
              |out.rows[row]| == sx &&
              forall col :: 0 <= col < sx ==> out.rows[row][col] == Centred(values, size, sx, sy, row, col)
  {
    if size <= 0 {
      return Single(values[0]);
    }
    var nx := WindowCount(size, sx);
    var ny := WindowCount(size, sy);
    var h := size / 2;
    var dRes := new Option<real>[sx];
    var rows: seq<seq<Option<real>>> := [];
    var row := 0;
    while row < sy
      invariant 0 <= row <= sy && |rows| == row
      invariant forall r :: 0 <= r < row ==>
                  |rows[r]| == sx && forall col :: 0 <= col < sx ==> rows[r][col] == Centred(values, size, sx, sy, r, col)
    {
      var c := 0;
      while c < sx
        invariant 0 <= c <= sx
        invariant forall j :: 0 <= j < c ==> dRes[j] == None
      {
        dRes[c] := None;
        c := c + 1;
      }
      if row >= h && row < ny + h {
        var col := 0;
        while col < nx
          invariant 0 <= col && (col <= nx || col == 0)
          invariant forall j :: 0 <= j < sx ==>
                      dRes[j] == if h <= j < col + h then Centred(values, size, sx, sy, row, j) else None
        {
          CellIndex(row - h, col, nx, ny);
          dRes[col + h] := Some(values[(row - h) * nx + col]);
          col := col + 1;
        }
      }
      assert forall j :: 0 <= j < sx ==> dRes[j] == Centred(values, size, sx, sy, row, j);
      rows := rows + [dRes[..]];
      row := row + 1;
    }
    return Raster(rows);
  }
}

/**
 * The universe (src/lib.rs): a torus of `width` x `height` cells stored
 * row-major in one sequence, the toroidal neighbour scan, and the
 * double-buffered `tick` that applies the life rules to a copy while reading
 * only the pre-tick cells.
 */
module Grid {
  import opened Genome
  import opened Cells

  const U32Max: nat := 0xFFFF_FFFF

  // ---------------------------------------------------------------------------
  // Row-major indexing arithmetic

  /**
   * `a * b` for naturals, as `a` summands of `b`. The grid arithmetic is
   * written with it so that the solver reasons about it linearly, one row at
   * a time; TimesIsProduct connects it to `*`.
   */
  function Times(a: nat, b: nat): nat
  {
    if a == 0 then 0 else Times(a - 1, b) + b
  }

  lemma {:induction false} TimesIsProduct(a: nat, b: nat)
    ensures Times(a, b) == a * b
  {
    if a > 0 {
      TimesIsProduct(a - 1, b);
    }
  }

  /** `row * width + column`: the position `get_index` computes. */
  function RowMajor(width: nat, row: nat, col: nat): nat
  {
    Times(row, width) + col
  }

  /** `width * height`: the number of cells `Universe::new` creates. */
  function Area(width: nat, height: nat): nat
  {
    Times(height, width)
  }

  /**
   * Dimensions for which none of the universe's `u32` arithmetic overflows:
   * `width * height`, `row * width + column`, and `row + (height - 1)` in the
   * neighbour scan.
   */
  predicate Fits(width: nat, height: nat)
  {
    Area(width, height) <= U32Max && width <= 0x8000_0000 && height <= 0x8000_0000
  }

  lemma MulMonotonic(a: nat, b: nat, c: nat)
    requires a <= b
    ensures a * c <= b * c
  {
  }

  /** Euclidean division is determined by quotient and remainder. */
  lemma DivModUnique(x: int, n: nat, q: int, r: int)
    requires n > 0 && 0 <= r < n && x == q * n + r
    ensures x / n == q && x % n == r
  {
    var q', r' := x / n, x % n;
    assert (q - q') * n == r' - r;
    if q > q' {
      MulMonotonic(1, q - q', n);
    } else if q < q' {
      MulMonotonic(1, q' - q, n);
    }
  }

  /**
   * A value below twice the modulus is reduced by at most one subtraction;
   * the scan's `(row + delta) % height` always is.
   */
  function WrapOnce(x: nat, n: nat): (y: nat)
    requires x < 2 * n
    ensures y < n
  {
    if x < n then x else x - n
  }

  lemma ModOnce(x: nat, n: nat)
    requires x < 2 * n
    ensures x % n == WrapOnce(x, n)
  {
    DivModUnique(x, n, if x < n then 0 else 1, WrapOnce(x, n));
  }

  /** A coordinate inside the grid has a position inside the cell sequence. */
  lemma {:induction false} IndexInGrid(width: nat, height: nat, row: nat, col: nat)
    requires row < height && col < width
    ensures RowMajor(width, row, col) < Area(width, height)
    decreases height
  {
    if row < height - 1 {
      IndexInGrid(width, height - 1, row, col);
    }
  }

  /** The row of a position in a grid `width` wide. */
  function RowOf(width: nat, k: nat): nat
    requires width >= 1
    decreases k
  {
    if k < width then 0 else RowOf(width, k - width) + 1
  }

  /** The column of a position in a grid `width` wide. */
  function ColumnOf(width: nat, k: nat): nat
    requires width >= 1
    decreases k
  {
    if k < width then k else ColumnOf(width, k - width)
  }

  /** Every position splits into a column inside the width and a row. */
  lemma {:induction false} PositionSplits(width: nat, k: nat)
    requires width >= 1
    ensures ColumnOf(width, k) < width
    ensures RowMajor(width, RowOf(width, k), ColumnOf(width, k)) == k
    decreases k
  {
    if k >= width {
      PositionSplits(width, k - width);
    }
  }

  /** RowOf and ColumnOf are Euclidean division and remainder by the width. */
  lemma RowColumnAreDivMod(width: nat, k: nat)
    requires width >= 1
    ensures RowOf(width, k) == k / width && ColumnOf(width, k) == k % width
  {
    PositionSplits(width, k);
    TimesIsProduct(RowOf(width, k), width);
    DivModUnique(k, width, RowOf(width, k), ColumnOf(width, k));
  }

  /** Splitting a row-major position gives back its row and column. */
  lemma {:induction false} RowMajorRoundTrip(width: nat, row: nat, col: nat)
    requires col < width
    ensures RowOf(width, RowMajor(width, row, col)) == row
    ensures ColumnOf(width, RowMajor(width, row, col)) == col
  {
    if row > 0 {
      RowMajorRoundTrip(width, row - 1, col);
    }
  }

  /** Every position of the grid lies in one of its rows. */
  lemma {:induction false} PositionInGrid(width: nat, height: nat, k: nat)
    requires k < Area(width, height)
    ensures width >= 1 && height >= 1 && RowOf(width, k) < height && ColumnOf(width, k) < width
    decreases height
  {
    if k >= width {
      PositionInGrid(width, height - 1, k - width);
    }
    PositionSplits(width, k);
  }

  // ---------------------------------------------------------------------------
  // Toroidal neighbour scan

  /** The offsets `live_neighbours` tries along a dimension of size n: `[n - 1, 0, 1]`. */
  function ScanOffsets(n: nat): seq<nat>
    requires n >= 1
  {
    [n - 1, 0, 1]
  }

  /**
   * Entry i of ScanOffsets(n), the same list as a conditional: the scan's
   * specification uses this form so that the solver need not reason about a
   * sequence display at every step.
   */
  function ScanOffset(n: nat, i: nat): nat
    requires n >= 1 && i < 3
  {
    if i == 0 then n - 1 else if i == 1 then 0 else 1
  }

  lemma ScanOffsetsAt(n: nat, i: nat)
    requires n >= 1 && i < 3
    ensures |ScanOffsets(n)| == 3 && ScanOffsets(n)[i] == ScanOffset(n, i) <= n
  {
  }

  /** Coordinates lie inside a `width` x `height` grid. */
  predicate InGrid(width: nat, height: nat, coords: seq<(nat, nat)>)
  {
    forall k :: 0 <= k < |coords| ==> coords[k].0 < height && coords[k].1 < width
  }

  /**
   * The coordinate one offset pair visits from (row, col): none for (0, 0),
   * else the offset added modulo the dimensions (ModOnce: one subtraction).
   */
  function Visit(width: nat, height: nat, row: nat, col: nat, delta: (nat, nat)): (coords: seq<(nat, nat)>)
    requires row < height && col < width && delta.0 <= height && delta.1 <= width
    ensures |coords| == if delta == (0, 0) then 0 else 1
  {
    var (dr, dc) := delta;
    if dr == 0 && dc == 0 then [] else [(WrapOnce(row + dr, height), WrapOnce(col + dc, width))]
  }

  /** Scan positions: row offset i and the first j column offsets of it have been tried. */
  predicate ScanPoint(i: nat, j: nat)
  {
    (i < 3 && j <= 3) || (i == 3 && j == 0)
  }

  /**
   * The coordinates the scan of (row, col) has visited once the row offsets
   * before i have been tried in full and row offset i with the first j
   * column offsets, in order.
   */
  function Scanned(width: nat, height: nat, row: nat, col: nat, i: nat, j: nat): (coords: seq<(nat, nat)>)
    requires row < height && col < width && ScanPoint(i, j)
  {
    if j > 0 then
      Scanned(width, height, row, col, i, j - 1)
      + Visit(width, height, row, col, (ScanOffset(height, i), ScanOffset(width, j - 1)))
    else if i > 0 then Scanned(width, height, row, col, i - 1, 3)
    else []
  }

  /** Every visited coordinate is reduced into the grid. */
  lemma {:induction false} ScannedInGrid(width: nat, height: nat, row: nat, col: nat, i: nat, j: nat)
    requires row < height && col < width && ScanPoint(i, j)
    ensures InGrid(width, height, Scanned(width, height, row, col, i, j))
    decreases i, j
  {
    if j > 0 {
      ScannedInGrid(width, height, row, col, i, j - 1);
      var before := Scanned(width, height, row, col, i, j - 1);
      var delta := (ScanOffset(height, i), ScanOffset(width, j - 1));
      if delta == (0, 0) {
        assert Scanned(width, height, row, col, i, j) == before + [] == before;
      }
    } else if i > 0 {
      ScannedInGrid(width, height, row, col, i - 1, 3);
    }
  }

  /** The coordinates the whole scan of (row, col) visits. */
  function NeighbourCoords(width: nat, height: nat, row: nat, col: nat): (coords: seq<(nat, nat)>)
    requires row < height && col < width
    ensures InGrid(width, height, coords)
  {
    ScannedInGrid(width, height, row, col, 3, 0);
    Scanned(width, height, row, col, 3, 0)
  }

  /** What row offset i of the scan visits: its three column offsets, in order. */
  function RowVisits(width: nat, height: nat, row: nat, col: nat, i: nat): (coords: seq<(nat, nat)>)
    requires row < height && col < width && i < 3
    ensures |coords| <= 3
  {
    var dr := ScanOffset(height, i);
    Visit(width, height, row, col, (dr, width - 1)) + Visit(width, height, row, col, (dr, 0))
      + Visit(width, height, row, col, (dr, 1))
  }

  /** Row offset i of the scan adds its three visits to what the earlier rows visited. */
  lemma ScanRow(width: nat, height: nat, row: nat, col: nat, i: nat)
    requires row < height && col < width && i < 3
    ensures Scanned(width, height, row, col, i, 3) == Scanned(width, height, row, col, i, 0) + RowVisits(width, height, row, col, i)
  {
    var dr := ScanOffset(height, i);
    var v0 := Visit(width, height, row, col, (dr, width - 1));
    var v1 := Visit(width, height, row, col, (dr, 0));
    var v2 := Visit(width, height, row, col, (dr, 1));
    var start := Scanned(width, height, row, col, i, 0);
    assert Scanned(width, height, row, col, i, 1) == start + v0;
    assert Scanned(width, height, row, col, i, 2) == start + v0 + v1;
    assert start + v0 + v1 + v2 == start + (v0 + v1 + v2);
  }

  /** The scan tries row offsets height - 1, 0 and 1, in that order. */
  lemma ScanUnfold(width: nat, height: nat, row: nat, col: nat)
    requires row < height && col < width
    ensures NeighbourCoords(width, height, row, col) ==
      RowVisits(width, height, row, col, 0) + RowVisits(width, height, row, col, 1) + RowVisits(width, height, row, col, 2)
  {
    ScanRow(width, height, row, col, 0);
    ScanRow(width, height, row, col, 1);
    ScanRow(width, height, row, col, 2);
    var r0 := RowVisits(width, height, row, col, 0);
    assert Scanned(width, height, row, col, 0, 3) == r0 by {
      assert Scanned(width, height, row, col, 0, 0) == [];
      assert [] + r0 == r0;
    }
  }

  /** A (0, 0) step of the scan visits nothing. */
  lemma ScanSkip(width: nat, height: nat, row: nat, col: nat, i: nat, j: nat)
    requires row < height && col < width && i < 3 && j < 3
    requires ScanOffset(height, i) == 0 && ScanOffset(width, j) == 0
    ensures Scanned(width, height, row, col, i, j + 1) == Scanned(width, height, row, col, i, j)
  {
    var before := Scanned(width, height, row, col, i, j);
    assert before + [] == before;
  }

  /** Any other step visits the offset coordinate reduced into the grid. */
  lemma ScanVisit(width: nat, height: nat, row: nat, col: nat, i: nat, j: nat)
    requires row < height && col < width && i < 3 && j < 3
    requires ScanOffset(height, i) != 0 || ScanOffset(width, j) != 0
    ensures Scanned(width, height, row, col, i, j + 1) == Scanned(width, height, row, col, i, j)
      + [(WrapOnce(row + ScanOffset(height, i), height), WrapOnce(col + ScanOffset(width, j), width))]
  {
  }

  /** The scan visits at most eight coordinates: the (0, 0) pair is always skipped. */
  lemma NeighbourCount(width: nat, height: nat, row: nat, col: nat)
    requires row < height && col < width
    ensures |NeighbourCoords(width, height, row, col)| <= 8
  {
    ScanUnfold(width, height, row, col);
    assert |RowVisits(width, height, row, col, 1)| <= 2;
  }

  /** `x` reduced onto the torus of size `n` (signed, Euclidean). */
  function Wrap(x: int, n: nat): nat
    requires n > 0
  {
    x % n
  }

  /** Reducing a value at most one step outside [0, n). */
  lemma WrapNear(y: int, n: nat)
    requires n >= 1 && -1 <= y <= n
    ensures Wrap(y, n) == if y < 0 then y + n else if y == n then 0 else y
  {
    if y < 0 {
      DivModUnique(y, n, -1, y + n);
    } else if y == n {
      DivModUnique(y, n, 1, 0);
    } else {
      DivModUnique(y, n, 0, y);
    }
  }

  /** The eight signed offsets (row, column) of the Moore neighbourhood, in scan order. */
  const Offsets: seq<(int, int)> := [(-1, -1), (-1, 0), (-1, 1), (0, -1), (0, 1), (1, -1), (1, 0), (1, 1)]

  /** One step back from x on a cycle of length n: what the scan's offset `n - 1` reaches. */
  function Before(x: nat, n: nat): nat
    requires x < n
  {
    if x == 0 then n - 1 else x - 1
  }

  /** One step forward from x on a cycle of length n: what the scan's offset 1 reaches. */
  function After(x: nat, n: nat): nat
    requires x < n
  {
    if x + 1 == n then 0 else x + 1
  }

  /** On a grid at least 2 x 2 the scan visits the eight cyclic neighbours in scan order. */
  lemma NeighbourCoordsCyclic(width: nat, height: nat, row: nat, col: nat)
    requires width >= 2 && height >= 2 && row < height && col < width
    ensures var up, down, left, right := Before(row, height), After(row, height), Before(col, width), After(col, width);
      NeighbourCoords(width, height, row, col) ==
        [(up, left), (up, col), (up, right), (row, left), (row, right), (down, left), (down, col), (down, right)]
  {
    ScanUnfold(width, height, row, col);
    var up, down, left, right := Before(row, height), After(row, height), Before(col, width), After(col, width);
    var r0, r1, r2 := RowVisits(width, height, row, col, 0), RowVisits(width, height, row, col, 1), RowVisits(width, height, row, col, 2);
    assert r0 == [(up, left), (up, col), (up, right)];
    assert r1 == [(row, left), (row, right)];
    assert r2 == [(down, left), (down, col), (down, right)];
  }

  /**
   * On a grid at least 2 x 2 the scan visits exactly the eight toroidal
   * neighbours ((row + dr) mod height, (col + dc) mod width), in scan order.
   */
  lemma NeighbourCoordsTorus(width: nat, height: nat, row: nat, col: nat)
    requires width >= 2 && height >= 2 && row < height && col < width
    ensures |NeighbourCoords(width, height, row, col)| == 8
    ensures forall k :: 0 <= k < 8 ==>
      NeighbourCoords(width, height, row, col)[k] == (Wrap(row + Offsets[k].0, height), Wrap(col + Offsets[k].1, width))
  {
    NeighbourCoordsCyclic(width, height, row, col);
    WrapNear(row - 1, height);
    WrapNear(row, height);
    WrapNear(row + 1, height);
    WrapNear(col - 1, width);
    WrapNear(col, width);
    WrapNear(col + 1, width);
  }

  /**
   * On a grid at least 3 x 3 the eight visited coordinates are distinct and
   * none of them is (row, col) itself.
   */
  lemma NeighboursDistinct(width: nat, height: nat, row: nat, col: nat)
    requires width >= 3 && height >= 3 && row < height && col < width
    ensures var coords := NeighbourCoords(width, height, row, col);
      && (forall i, j :: 0 <= i < j < |coords| ==> coords[i] != coords[j])
      && (row, col) !in coords
  {
    NeighbourCoordsCyclic(width, height, row, col);
    var up, down, left, right := Before(row, height), After(row, height), Before(col, width), After(col, width);
    assert up != row && down != row && up != down;
    assert left != col && right != col && left != right;
  }

  /** On a 3 x 3 grid the opposite corner (2, 2) is a neighbour of (0, 0). */
  lemma CornerWrapsAround()
    ensures (2, 2) in NeighbourCoords(3, 3, 0, 0)
  {
    NeighbourCoordsTorus(3, 3, 0, 0);
    WrapNear(-1, 3);
    assert NeighbourCoords(3, 3, 0, 0)[0] == (2, 2);
  }

  /** On a 1 x 1 grid the offset lists are [0, 0, 1]: the scan visits the cell itself five times. */
  lemma SingleCellScan()
    ensures NeighbourCoords(1, 1, 0, 0) == [(0, 0), (0, 0), (0, 0), (0, 0), (0, 0)]
  {
    ScanUnfold(1, 1, 0, 0);
    assert RowVisits(1, 1, 0, 0, 0) == [(0, 0)];
    assert RowVisits(1, 1, 0, 0, 1) == [(0, 0)];
    assert RowVisits(1, 1, 0, 0, 2) == [(0, 0), (0, 0), (0, 0)];
  }

  // ---------------------------------------------------------------------------
  // Live neighbours

  /**
   * The live cells at the first n of `coords`, in order: what
   * `live_neighbours` pushes. A coordinate whose row-major position lies
   * outside `cells` names no cell; the scan never produces one (ScannedInGrid).
   */
  function LivePrefix(cells: seq<Cell>, width: nat, coords: seq<(nat, nat)>, n: nat): (live: seq<Cell>)
    requires n <= |coords|
    ensures |live| <= n
  {
    if n == 0 then []
    else
      var rest := LivePrefix(cells, width, coords, n - 1);
      var idx := RowMajor(width, coords[n - 1].0, coords[n - 1].1);
      if idx < |cells| && cells[idx].alive then rest + [cells[idx]] else rest
  }

  /** The live cells at `coords`, in order. */
  function LiveCells(cells: seq<Cell>, width: nat, coords: seq<(nat, nat)>): (live: seq<Cell>)
    ensures |live| <= |coords|
  {
    LivePrefix(cells, width, coords, |coords|)
  }

  /** Only live cells are collected. */
  lemma {:induction false} LivePrefixAlive(cells: seq<Cell>, width: nat, coords: seq<(nat, nat)>, n: nat)
    requires n <= |coords|
    ensures forall c :: c in LivePrefix(cells, width, coords, n) ==> c.alive
  {
    if n > 0 {
      LivePrefixAlive(cells, width, coords, n - 1);
    }
  }

  /** The live cells among a prefix do not depend on what follows it. */
  lemma {:induction false} LivePrefixStable(cells: seq<Cell>, width: nat, coords: seq<(nat, nat)>, more: seq<(nat, nat)>, n: nat)
    requires n <= |coords|
    ensures LivePrefix(cells, width, coords + more, n) == LivePrefix(cells, width, coords, n)
  {
    if n > 0 {
      assert (coords + more)[n - 1] == coords[n - 1];
      LivePrefixStable(cells, width, coords, more, n - 1);
    }
  }

  /** Looking at one more coordinate appends its cell when that cell is alive. */
  lemma LiveCellsSnoc(cells: seq<Cell>, width: nat, coords: seq<(nat, nat)>, row: nat, col: nat)
    requires RowMajor(width, row, col) < |cells|
    ensures LiveCells(cells, width, coords + [(row, col)]) ==
      if cells[RowMajor(width, row, col)].alive
      then LiveCells(cells, width, coords) + [cells[RowMajor(width, row, col)]]
      else LiveCells(cells, width, coords)
  {
    assert (coords + [(row, col)])[|coords|] == (row, col);
    LivePrefixStable(cells, width, coords, [(row, col)], |coords|);
  }

  /**
   * The live cells the scan of (row, col) collects once the row offsets
   * before i have been tried in full and row offset i with the first j
   * column offsets: the value `live_neighbours` builds, step by step.
   */
  function ScanLive(cells: seq<Cell>, width: nat, height: nat, row: nat, col: nat, i: nat, j: nat): (live: seq<Cell>)
    requires row < height && col < width && |cells| == Area(width, height) && ScanPoint(i, j)
  {
    if j > 0 then
      var before := ScanLive(cells, width, height, row, col, i, j - 1);
      var dr, dc := ScanOffset(height, i), ScanOffset(width, j - 1);
      var nr, nc := WrapOnce(row + dr, height), WrapOnce(col + dc, width);
      IndexInGrid(width, height, nr, nc);
      var idx := RowMajor(width, nr, nc);
      if (dr != 0 || dc != 0) && cells[idx].alive then before + [cells[idx]] else before
    else if i > 0 then ScanLive(cells, width, height, row, col, i - 1, 3)
    else []
  }

  /** One step of the collecting scan, with the visited position inside the cells. */
  lemma ScanLiveStep(cells: seq<Cell>, width: nat, height: nat, row: nat, col: nat, i: nat, j: nat)
    requires row < height && col < width && |cells| == Area(width, height) && i < 3 && j < 3
    ensures var dr, dc := ScanOffset(height, i), ScanOffset(width, j);
      var idx := RowMajor(width, WrapOnce(row + dr, height), WrapOnce(col + dc, width));
      && idx < |cells|
      && ScanLive(cells, width, height, row, col, i, j + 1) ==
         if (dr != 0 || dc != 0) && cells[idx].alive then ScanLive(cells, width, height, row, col, i, j) + [cells[idx]]
         else ScanLive(cells, width, height, row, col, i, j)
  {
    IndexInGrid(width, height, WrapOnce(row + ScanOffset(height, i), height), WrapOnce(col + ScanOffset(width, j), width));
  }

  /** A step of the scan that visits a coordinate collects its cell exactly when the filter keeps it. */
  lemma ScanLiveVisits(cells: seq<Cell>, width: nat, height: nat, row: nat, col: nat, i: nat, j: nat)
    requires row < height && col < width && |cells| == Area(width, height) && i < 3 && j < 3
    requires ScanOffset(height, i) != 0 || ScanOffset(width, j) != 0
    requires ScanLive(cells, width, height, row, col, i, j) == LiveCells(cells, width, Scanned(width, height, row, col, i, j))
    ensures ScanLive(cells, width, height, row, col, i, j + 1) == LiveCells(cells, width, Scanned(width, height, row, col, i, j + 1))
  {
    ScanLiveStep(cells, width, height, row, col, i, j);
    ScanVisit(width, height, row, col, i, j);
    var nr, nc := WrapOnce(row + ScanOffset(height, i), height), WrapOnce(col + ScanOffset(width, j), width);
    LiveCellsSnoc(cells, width, Scanned(width, height, row, col, i, j), nr, nc);
  }

  /** A step of the scan at offset (0, 0) neither visits nor collects anything. */
  lemma ScanLiveSkips(cells: seq<Cell>, width: nat, height: nat, row: nat, col: nat, i: nat, j: nat)
    requires row < height && col < width && |cells| == Area(width, height) && i < 3 && j < 3
    requires ScanOffset(height, i) == 0 && ScanOffset(width, j) == 0
    requires ScanLive(cells, width, height, row, col, i, j) == LiveCells(cells, width, Scanned(width, height, row, col, i, j))
    ensures ScanLive(cells, width, height, row, col, i, j + 1) == LiveCells(cells, width, Scanned(width, height, row, col, i, j + 1))
  {
    ScanLiveStep(cells, width, height, row, col, i, j);
    ScanSkip(width, height, row, col, i, j);
  }

  /** Collecting during the scan is filtering the visited coordinates for live cells. */
  lemma {:induction false} ScanLiveFilters(cells: seq<Cell>, width: nat, height: nat, row: nat, col: nat, i: nat, j: nat)
    requires row < height && col < width && |cells| == Area(width, height) && ScanPoint(i, j)
    ensures ScanLive(cells, width, height, row, col, i, j) == LiveCells(cells, width, Scanned(width, height, row, col, i, j))
    decreases i, j
  {
    if j > 0 {
      ScanLiveFilters(cells, width, height, row, col, i, j - 1);
      if ScanOffset(height, i) != 0 || ScanOffset(width, j - 1) != 0 {
        ScanLiveVisits(cells, width, height, row, col, i, j - 1);
      } else {
        ScanLiveSkips(cells, width, height, row, col, i, j - 1);
      }
    } else if i > 0 {
      ScanLiveFilters(cells, width, height, row, col, i - 1, 3);
    }
  }

  /** Coordinates that all name the same cell see that cell once per coordinate, or not at all. */
  lemma {:induction false} LivePrefixOfOne(cells: seq<Cell>, width: nat, coords: seq<(nat, nat)>, idx: nat, n: nat)
    requires idx < |cells| && n <= |coords|
    requires forall k :: 0 <= k < |coords| ==> RowMajor(width, coords[k].0, coords[k].1) == idx
    ensures LivePrefix(cells, width, coords, n) == if cells[idx].alive then seq(n, _ => cells[idx]) else []
  {
    if n > 0 {
      LivePrefixOfOne(cells, width, coords, idx, n - 1);
    }
  }

  /** The live neighbours of (row, col) in scan order: what the whole scan collects. */
  function LiveNeighboursOf(cells: seq<Cell>, width: nat, height: nat, row: nat, col: nat): seq<Cell>
    requires row < height && col < width && |cells| == Area(width, height)
  {
    ScanLive(cells, width, height, row, col, 3, 0)
  }

  /**
   * The live neighbours are exactly the live cells at the visited
   * coordinates: at most eight of them, all alive.
   */
  lemma LiveNeighboursFiltered(cells: seq<Cell>, width: nat, height: nat, row: nat, col: nat)
    requires row < height && col < width && |cells| == Area(width, height)
    ensures LiveNeighboursOf(cells, width, height, row, col) == LiveCells(cells, width, NeighbourCoords(width, height, row, col))
    ensures var live := LiveNeighboursOf(cells, width, height, row, col);
      |live| <= 8 && forall c :: c in live ==> c.alive
  {
    ScanLiveFilters(cells, width, height, row, col, 3, 0);
    NeighbourCount(width, height, row, col);
    LivePrefixAlive(cells, width, NeighbourCoords(width, height, row, col), |NeighbourCoords(width, height, row, col)|);
  }

  // ---------------------------------------------------------------------------
  // Life rules

  /** The random draws one cell may consume during a tick. */
  datatype TickDraw = TickDraw(liveOn: LiveOnDraw, birth: BirthDraw)

  /** The rules `tick` applies to one cell, given its live neighbours in the pre-tick grid. */
  function NextCell(cell: Cell, live: seq<Cell>, d: TickDraw): Cell
  {
    if cell.alive then
      if |live| < 2 || |live| > 3 then Cell.Killed() else cell.LivedOn(d.liveOn)
    else if |live| == 3 then cell.BornFrom(live, d.birth)
    else cell
  }

  /**
   * A cell is alive after the rules only if it was alive with two or three
   * live neighbours or dead with exactly three; starvation and overpopulation
   * kill and zero it; a dead cell without exactly three is left as it was;
   * the age and life expectancy bounds are kept.
   */
  lemma NextCellRules(cell: Cell, live: seq<Cell>, d: TickDraw)
    ensures NextCell(cell, live, d).alive ==>
      (cell.alive && 2 <= |live| <= 3) || (!cell.alive && |live| == 3)
    ensures cell.alive && (|live| < 2 || |live| > 3) ==> NextCell(cell, live, d) == Cell(false, 0, 0, 0, 0, 0)
    ensures !cell.alive && |live| != 3 ==> NextCell(cell, live, d) == cell
    ensures cell.Bounded() ==> NextCell(cell, live, d).Bounded()
  {
  }

  /**
   * The rules `tick` applies to the copy of one cell, in its order: the
   * three checks of a live cell (starvation, survival, overpopulation)
   * each act on the result of the one before; a dead cell with exactly
   * three live neighbours is born from them.
   */
  method ApplyRules(cell: Cell, liveNeighbours: seq<Cell>, d: TickDraw) returns (next: Cell)
    ensures next == NextCell(cell, liveNeighbours, d)
  {
    next := cell;
    var numLiveNeighbours := |liveNeighbours|;
    if cell.alive {
      if numLiveNeighbours < 2 {
        next := next.Kill();
      }
      if numLiveNeighbours == 2 || numLiveNeighbours == 3 {
        next := next.LiveOn(d.liveOn);
      }
      if numLiveNeighbours > 3 {
        next := next.Kill();
      }
    } else {
      if numLiveNeighbours == 3 {
        var parents := [liveNeighbours[0], liveNeighbours[1], liveNeighbours[2]];
        assert parents == liveNeighbours;
        next := next.GiveBirth(parents, d.birth);
      }
    }
  }

  /** The cell at position k after one tick, from the pre-tick cells only. */
  function TickedAt(width: nat, height: nat, cells: seq<Cell>, draws: seq<TickDraw>, k: nat): Cell
    requires |cells| == Area(width, height) && |draws| == |cells| && k < |cells|
  {
    PositionInGrid(width, height, k);
    NextCell(cells[k], LiveNeighboursOf(cells, width, height, RowOf(width, k), ColumnOf(width, k)), draws[k])
  }

  /** The grid after one tick. */
  function Ticked(width: nat, height: nat, cells: seq<Cell>, draws: seq<TickDraw>): (next: seq<Cell>)
    requires |cells| == Area(width, height) && |draws| == |cells|
  {
    seq(|cells|, k requires 0 <= k < |cells| => TickedAt(width, height, cells, draws, k))
  }

  /**
   * `tick` fills its copy in row-major order: the positions before n already
   * hold their cells of `target` and the rest still hold those of `original`.
   */
  ghost predicate FilledUpTo<T>(target: seq<T>, original: seq<T>, next: seq<T>, n: nat)
  {
    && |next| == |original| == |target|
    && (forall k :: 0 <= k < n && k < |next| ==> next[k] == target[k])
    && (forall k :: n <= k < |next| ==> next[k] == original[k])
  }

  /** Storing the target cell at position n extends the filled prefix by one. */
  lemma FilledStep<T>(target: seq<T>, original: seq<T>, next: seq<T>, n: nat)
    requires FilledUpTo(target, original, next, n) && n < |next|
    ensures next[n] == original[n]
    ensures FilledUpTo(target, original, next[n := target[n]], n + 1)
  {
  }

  /** Once every position is filled the copy is the target. */
  lemma FilledAll<T>(target: seq<T>, original: seq<T>, next: seq<T>, n: nat)
    requires FilledUpTo(target, original, next, n) && n >= |next|
    ensures next == target
  {
  }

  /** The ticked cell at the row-major position of (row, col) follows the rules from that cell's neighbours. */
  lemma TickedAtPosition(width: nat, height: nat, cells: seq<Cell>, draws: seq<TickDraw>, row: nat, col: nat)
    requires |cells| == Area(width, height) && |draws| == |cells| && row < height && col < width
    ensures RowMajor(width, row, col) < |cells|
    ensures var k := RowMajor(width, row, col);
      Ticked(width, height, cells, draws)[k] == NextCell(cells[k], LiveNeighboursOf(cells, width, height, row, col), draws[k])
  {
    IndexInGrid(width, height, row, col);
    RowMajorRoundTrip(width, row, col);
  }

  /** A tick keeps the number of cells and the age bounds of every cell. */
  lemma TickedBounded(width: nat, height: nat, cells: seq<Cell>, draws: seq<TickDraw>)
    requires |cells| == Area(width, height) && |draws| == |cells|
    requires forall k :: 0 <= k < |cells| ==> cells[k].Bounded()
    ensures |Ticked(width, height, cells, draws)| == |cells|
    ensures forall k :: 0 <= k < |cells| ==> Ticked(width, height, cells, draws)[k].Bounded()
  {
    forall k | 0 <= k < |cells|
      ensures Ticked(width, height, cells, draws)[k].Bounded()
    {
      PositionInGrid(width, height, k);
      NextCellRules(cells[k], LiveNeighboursOf(cells, width, height, RowOf(width, k), ColumnOf(width, k)), draws[k]);
    }
  }

  /** A 1 x 1 universe: an alive cell sees itself five times and dies; a dead cell stays as it is. */
  lemma SingleCellTick(c: Cell, d: TickDraw)
    ensures Area(1, 1) == 1
    ensures Ticked(1, 1, [c], [d]) == [if c.alive then Cell.Killed() else c]
  {
    assert Area(1, 1) == 1;
    assert RowOf(1, 0) == 0 && ColumnOf(1, 0) == 0;
    SingleCellScan();
    var coords := NeighbourCoords(1, 1, 0, 0);
    LivePrefixOfOne([c], 1, coords, 0, |coords|);
    LiveNeighboursFiltered([c], 1, 1, 0, 0);
    var live := LiveNeighboursOf([c], 1, 1, 0, 0);
    assert |live| == if c.alive then 5 else 0;
    assert TickedAt(1, 1, [c], [d], 0) == NextCell(c, live, d);
  }

  // ---------------------------------------------------------------------------
  // The universe

  class Universe {
    const width: nat
    const height: nat
    var cells: seq<Cell>

    /** One cell per grid position, the dimensions fit `u32`, and every cell's ages are bounded. */
    ghost predicate Valid()
      reads this
    {
      && Fits(width, height)
      && |cells| == Area(width, height)
      && forall k :: 0 <= k < |cells| ==> cells[k].Bounded()
    }

    /** `Universe::new`: every cell is a fresh `Cell::new`. */
    constructor (width: nat, height: nat, draws: seq<ResetDraw>)
      requires Fits(width, height)
      requires |draws| == Area(width, height)
      ensures this.width == width && this.height == height
      ensures |cells| == Area(width, height)
      ensures forall k :: 0 <= k < |cells| ==> cells[k] == Cell.Randomized(draws[k])
      ensures Valid()
    {
      this.width := width;
      this.height := height;
      var created: seq<Cell> := [];
      var k := 0;
      while k < Area(width, height)
        invariant 0 <= k <= Area(width, height)
        invariant |created| == k
        invariant forall j :: 0 <= j < k ==> created[j] == Cell.Randomized(draws[j])
      {
        var c := Cell.New(draws[k]);
        created := created + [c];
        k := k + 1;
      }
      cells := created;
    }

    /** `reset`: every cell is reset in place. */
    method Reset(draws: seq<ResetDraw>)
      requires Valid()
      requires |draws| == |cells|
      modifies this
      ensures Valid()
      ensures |cells| == |old(cells)|
      ensures forall k :: 0 <= k < |cells| ==> cells[k] == Cell.Randomized(draws[k])
    {
      var k := 0;
      while k < |cells|
        invariant 0 <= k <= |cells| == |old(cells)|
        invariant forall j :: 0 <= j < k ==> cells[j] == Cell.Randomized(draws[j])
        invariant forall j :: k <= j < |cells| ==> cells[j] == old(cells)[j]
      {
        var c := cells[k].Reset(draws[k]);
        cells := cells[k := c];
        k := k + 1;
      }
    }

    /** `get_index`: the row-major position of (row, column). */
    function GetIndex(row: nat, column: nat): nat
      requires RowMajor(width, row, column) <= U32Max
    {
      RowMajor(width, row, column)
    }

    /** A position inside the grid indexes the cells, and a column inside the rows splits back out. */
    lemma GetIndexSplits(row: nat, column: nat)
      requires RowMajor(width, row, column) <= U32Max
      ensures row < height && column < width ==> GetIndex(row, column) < Area(width, height)
      ensures column < width ==> RowOf(width, GetIndex(row, column)) == row && ColumnOf(width, GetIndex(row, column)) == column
    {
      if column < width {
        RowMajorRoundTrip(width, row, column);
        if row < height {
          IndexInGrid(width, height, row, column);
        }
      }
    }

    /** Distinct coordinates inside the rows have distinct indices. */
    lemma GetIndexInjective(row1: nat, column1: nat, row2: nat, column2: nat)
      requires RowMajor(width, row1, column1) <= U32Max && RowMajor(width, row2, column2) <= U32Max
      requires column1 < width && column2 < width
      ensures GetIndex(row1, column1) == GetIndex(row2, column2) <==> row1 == row2 && column1 == column2
    {
      GetIndexSplits(row1, column1);
      GetIndexSplits(row2, column2);
    }

    /** `cell`: the cell stored at (row, column). */
    method CellAt(row: nat, column: nat) returns (c: Cell)
      requires RowMajor(width, row, column) <= U32Max
      requires GetIndex(row, column) < |cells|
      ensures c == cells[GetIndex(row, column)]
      ensures Valid() ==> c.Bounded()
    {
      var idx := GetIndex(row, column);
      c := cells[idx];
    }

    /**
     * One step of the scan in `live_neighbours`: the neighbour at offsets
     * (deltaRow, deltaColumn), wrapped around the edges, is appended when it
     * is alive and is not the cell itself.
     */
    method VisitNeighbour(current: seq<Cell>, row: nat, column: nat, i: nat, j: nat, deltaRow: nat, deltaColumn: nat, neighbours: seq<Cell>)
      returns (extended: seq<Cell>)
      requires Fits(width, height) && |current| == Area(width, height)
      requires row < height && column < width && i < 3 && j < 3
      requires deltaRow == ScanOffset(height, i) && deltaColumn == ScanOffset(width, j)
      requires neighbours == ScanLive(current, width, height, row, column, i, j)
      ensures extended == ScanLive(current, width, height, row, column, i, j + 1)
    {
      ScanLiveStep(current, width, height, row, column, i, j);
      extended := neighbours;
      if deltaRow != 0 || deltaColumn != 0 {
        assert row + deltaRow <= U32Max && column + deltaColumn <= U32Max;
        var neighbourRow := (row + deltaRow) % height;
        var neighbourColumn := (column + deltaColumn) % width;
        ModOnce(row + deltaRow, height);
        ModOnce(column + deltaColumn, width);
        IndexInGrid(width, height, neighbourRow, neighbourColumn);
        var idx := GetIndex(neighbourRow, neighbourColumn);
        if current[idx].alive {
          extended := neighbours + [current[idx]];
        }
      }
    }

    /** `live_neighbours`: the live cells among the scanned coordinates, in scan order. */
    method LiveNeighbours(row: nat, column: nat) returns (neighbours: seq<Cell>)
      requires Fits(width, height) && |cells| == Area(width, height)
      requires row < height && column < width
      ensures neighbours == LiveNeighboursOf(cells, width, height, row, column)
    {
      var current := cells;
      var rowDeltas := ScanOffsets(height);
      var columnDeltas := ScanOffsets(width);
      neighbours := [];
      var i := 0;
      while i < 3
        invariant 0 <= i <= 3
        invariant neighbours == ScanLive(current, width, height, row, column, i, 0)
      {
        var j := 0;
        while j < 3
          invariant 0 <= j <= 3
          invariant neighbours == ScanLive(current, width, height, row, column, i, j)
        {
          ScanOffsetsAt(height, i);
          ScanOffsetsAt(width, j);
          neighbours := VisitNeighbour(current, row, column, i, j, rowDeltas[i], columnDeltas[j], neighbours);
          j := j + 1;
        }
        i := i + 1;
      }
    }

    /**
     * The body of `tick`'s loops: the cell at (row, column) of the copy gets
     * the rules applied, from its live neighbours among the current cells.
     */
    method UpdateCell(current: seq<Cell>, draws: seq<TickDraw>, next: seq<Cell>, row: nat, column: nat)
      returns (updated: seq<Cell>)
      requires Fits(width, height) && cells == current && |current| == Area(width, height) && |draws| == |current|
      requires row < height && column < width
      requires FilledUpTo(Ticked(width, height, current, draws), current, next, RowMajor(width, row, column))
      ensures FilledUpTo(Ticked(width, height, current, draws), current, updated, RowMajor(width, row, column) + 1)
    {
      ghost var target := Ticked(width, height, current, draws);
      IndexInGrid(width, height, row, column);
      var idx := GetIndex(row, column);
      TickedAtPosition(width, height, current, draws, row, column);
      var liveNeighbours := LiveNeighbours(row, column);
      FilledStep(target, current, next, idx);
      var cell := ApplyRules(next[idx], liveNeighbours, draws[idx]);
      updated := next[idx := cell];
    }

    /**
     * `tick`: every cell of a copy gets the rules applied from its live
     * neighbours in the pre-tick cells, then the copy replaces the cells.
     */
    method Tick(draws: seq<TickDraw>)
      requires Valid()
      requires |draws| == |cells|
      modifies this
      ensures Valid()
      ensures cells == Ticked(width, height, old(cells), draws)
    {
      var current := cells;
      ghost var target := Ticked(width, height, current, draws);
      TickedBounded(width, height, current, draws);
      var next := current;
      var row := 0;
      while row < height
        invariant 0 <= row <= height
        invariant FilledUpTo(target, current, next, RowMajor(width, row, 0))
        modifies {}
      {
        var column := 0;
        while column < width
          invariant 0 <= column <= width
          invariant FilledUpTo(target, current, next, RowMajor(width, row, column))
          modifies {}
        {
          next := UpdateCell(current, draws, next, row, column);
          column := column + 1;
        }
        row := row + 1;
      }
      FilledAll(target, current, next, RowMajor(width, height, 0));
      cells := next;
    }
  }
}

/** Treetop tree house: a grid of tree heights, which trees are visible
    from outside the grid and how far each one can see. */
module Day08 {
  import opened Common

  /** The parsed input: one row of digit heights per line. */
  type Grid = seq<seq<int>>

  /** Every row as long as the first one. */
  predicate Rectangular(grid: Grid) {
    |grid| > 0 && forall i :: 0 <= i < |grid| ==> |grid[i]| == |grid[0]|
  }

  predicate InBounds(grid: Grid, row: int, col: int) {
    0 <= row < |grid| && 0 <= col < |grid[row]|
  }

  datatype VisibilityStatus = VisibilityStatus(visible: bool, viewingDistance: int)

  /** Looking along a ray of heights from a tree of height `treeHeight`:
      the tree is visible from that side when every tree on the ray is
      strictly shorter, and it sees up to and including the first tree at
      least as tall, or to the edge. */
  function View(treeHeight: int, heights: seq<int>): VisibilityStatus
    decreases heights
  {
    if heights == [] then VisibilityStatus(true, 0)
    else if heights[0] >= treeHeight then VisibilityStatus(false, 1)
    else
      var rest := View(treeHeight, heights[1..]);
      VisibilityStatus(rest.visible, rest.viewingDistance + 1)
  }

  /** The tree is visible along the ray exactly when every tree on it is
      shorter, and then it sees the whole ray; otherwise it sees up to and
      including the first tree at least as tall. */
  lemma {:induction false} ViewMeaning(treeHeight: int, heights: seq<int>)
    ensures var r := View(treeHeight, heights);
      && (r.visible <==> forall k :: 0 <= k < |heights| ==> heights[k] < treeHeight)
      && (r.visible ==> r.viewingDistance == |heights|)
      && (!r.visible ==>
        1 <= r.viewingDistance <= |heights| && heights[r.viewingDistance - 1] >= treeHeight &&
        forall k :: 0 <= k < r.viewingDistance - 1 ==> heights[k] < treeHeight)
    decreases heights
  {
    if heights != [] && heights[0] < treeHeight {
      ViewMeaning(treeHeight, heights[1..]);
      assert forall k :: 0 < k < |heights| ==> heights[k] == heights[1..][k - 1];
    }
  }

  predicate AllShorter(heights: seq<int>, treeHeight: int) {
    forall k :: 0 <= k < |heights| ==> heights[k] < treeHeight
  }

  /** The view is fixed by the first tree at least as tall. */
  lemma {:induction false} ViewStopsAt(treeHeight: int, heights: seq<int>, n: nat)
    requires n < |heights| && heights[n] >= treeHeight
    requires forall k :: 0 <= k < n ==> heights[k] < treeHeight
    ensures View(treeHeight, heights) == VisibilityStatus(false, n + 1)
  {
    if n > 0 {
      ViewStopsAt(treeHeight, heights[1..], n - 1);
    }
  }

  // ---------------------------------------------------------------------
  // The rays
  // ---------------------------------------------------------------------

  predicate CellsInGrid(grid: Grid, rows: seq<int>, cols: seq<int>) {
    forall k :: 0 <= k < |rows| ==>
      0 <= rows[k] < |grid| && forall m :: 0 <= m < |cols| ==> 0 <= cols[m] < |grid[rows[k]]|
  }

  function RowHeights(row: seq<int>, cols: seq<int>): seq<int>
    requires forall m :: 0 <= m < |cols| ==> 0 <= cols[m] < |row|
  {
    seq(|cols|, m requires 0 <= m < |cols| => row[cols[m]])
  }

  /** The heights the two nested loops of `calculateVisibilityStatus` look
      at: row by row, and in each row column by column. */
  function RayHeights(grid: Grid, rows: seq<int>, cols: seq<int>): seq<int>
    requires CellsInGrid(grid, rows, cols)
    decreases rows
  {
    if rows == [] then []
    else
      var last := rows[|rows| - 1];
      RayHeights(grid, rows[..|rows| - 1], cols) + RowHeights(grid[last], cols)
  }

  /** The heights seen after the first `i` rows start the whole ray. */
  lemma {:induction false} RayHeightsPrefix(grid: Grid, rows: seq<int>, cols: seq<int>, i: nat)
    requires CellsInGrid(grid, rows, cols) && i <= |rows|
    ensures CellsInGrid(grid, rows[..i], cols)
    ensures var seen := RayHeights(grid, rows[..i], cols);
      |seen| <= |RayHeights(grid, rows, cols)| && RayHeights(grid, rows, cols)[..|seen|] == seen
    decreases |rows|
  {
    PrefixInGrid(grid, rows, cols, i);
    if i < |rows| {
      var init := rows[..|rows| - 1];
      PrefixInGrid(grid, rows, cols, |rows| - 1);
      assert init[..i] == rows[..i];
      RayHeightsPrefix(grid, init, cols, i);
    } else {
      assert rows[..i] == rows;
    }
  }

  /** The cells of a column ray lie in a rectangular grid. */
  lemma ColumnCells(grid: Grid, rows: seq<int>, col: int)
    requires Rectangular(grid) && 0 <= col < |grid[0]|
    requires forall k :: 0 <= k < |rows| ==> 0 <= rows[k] < |grid|
    ensures CellsInGrid(grid, rows, [col])
  {
  }

  /** The cells of a row ray lie in the grid. */
  lemma RowCells(grid: Grid, row: int, cols: seq<int>)
    requires 0 <= row < |grid|
    requires forall m :: 0 <= m < |cols| ==> 0 <= cols[m] < |grid[row]|
    ensures CellsInGrid(grid, [row], cols)
  {
  }

  /** A ray along one column visits that column in the given rows. */
  lemma {:induction false} ColumnRay(grid: Grid, rows: seq<int>, col: int)
    requires Rectangular(grid) && 0 <= col < |grid[0]|
    requires forall k :: 0 <= k < |rows| ==> 0 <= rows[k] < |grid|
    ensures CellsInGrid(grid, rows, [col]) && |RayHeights(grid, rows, [col])| == |rows|
    ensures forall k :: 0 <= k < |rows| ==> RayHeights(grid, rows, [col])[k] == grid[rows[k]][col]
    decreases rows
  {
    if rows != [] {
      ColumnRay(grid, rows[..|rows| - 1], col);
    }
  }

  /** A ray along one row visits that row in the given columns. */
  lemma RowRay(grid: Grid, row: int, cols: seq<int>)
    requires 0 <= row < |grid|
    requires forall m :: 0 <= m < |cols| ==> 0 <= cols[m] < |grid[row]|
    ensures CellsInGrid(grid, [row], cols) && RayHeights(grid, [row], cols) == RowHeights(grid[row], cols)
  {
    assert [row][..0] == [];
  }

  /** The heights seen after `i` rows followed by the row `rows[i]`. */
  lemma RayHeightsNextRow(grid: Grid, rows: seq<int>, cols: seq<int>, i: nat)
    requires CellsInGrid(grid, rows, cols) && i < |rows|
    ensures CellsInGrid(grid, rows[..i], cols) && CellsInGrid(grid, rows[..i + 1], cols)
    ensures RayHeights(grid, rows[..i + 1], cols) == RayHeights(grid, rows[..i], cols) + RowHeights(grid[rows[i]], cols)
  {
    PrefixInGrid(grid, rows, cols, i);
    PrefixInGrid(grid, rows, cols, i + 1);
    assert rows[..i + 1][..i] == rows[..i];
  }

  /** The view along the ray when the tree in column `cols[j]` of row
      `rows[i]` is the first one at least as tall. */
  lemma StopsInRow(treeHeight: int, grid: Grid, rows: seq<int>, cols: seq<int>, i: nat, j: nat)
    requires CellsInGrid(grid, rows, cols) && i < |rows| && j < |cols|
    requires CellsInGrid(grid, rows[..i], cols)
    requires AllShorter(RayHeights(grid, rows[..i], cols), treeHeight)
    requires forall m :: 0 <= m < j ==> grid[rows[i]][cols[m]] < treeHeight
    requires grid[rows[i]][cols[j]] >= treeHeight
    ensures View(treeHeight, RayHeights(grid, rows, cols)) ==
      VisibilityStatus(false, |RayHeights(grid, rows[..i], cols)| + j + 1)
  {
    var ray := RayHeights(grid, rows, cols);
    var seen := RayHeights(grid, rows[..i], cols);
    RayHeightsNextRow(grid, rows, cols, i);
    RayHeightsPrefix(grid, rows, cols, i + 1);
    StopsAfter(treeHeight, ray, seen, RowHeights(grid[rows[i]], cols), j);
  }

  lemma StopsAfter(treeHeight: int, ray: seq<int>, seen: seq<int>, more: seq<int>, j: nat)
    requires |seen + more| <= |ray| && ray[..|seen + more|] == seen + more
    requires AllShorter(seen, treeHeight) && j < |more| && more[j] >= treeHeight
    requires forall m :: 0 <= m < j ==> more[m] < treeHeight
    ensures View(treeHeight, ray) == VisibilityStatus(false, |seen| + j + 1)
  {
    assert ray[|seen| + j] == (seen + more)[|seen| + j];
    forall k | 0 <= k < |seen| + j
      ensures ray[k] < treeHeight
    {
      assert ray[k] == (seen + more)[k];
    }
    ViewStopsAt(treeHeight, ray, |seen| + j);
  }

  /** A row with no tree as tall extends the shorter prefix of the ray. */
  lemma PassesRow(treeHeight: int, grid: Grid, rows: seq<int>, cols: seq<int>, i: nat)
    requires CellsInGrid(grid, rows, cols) && i < |rows|
    requires CellsInGrid(grid, rows[..i], cols)
    requires AllShorter(RayHeights(grid, rows[..i], cols), treeHeight)
    requires forall m :: 0 <= m < |cols| ==> grid[rows[i]][cols[m]] < treeHeight
    ensures CellsInGrid(grid, rows[..i + 1], cols)
    ensures AllShorter(RayHeights(grid, rows[..i + 1], cols), treeHeight)
  {
    RayHeightsNextRow(grid, rows, cols, i);
    var row := RowHeights(grid[rows[i]], cols);
    assert AllShorter(row, treeHeight);
    AppendAllShorter(RayHeights(grid, rows[..i], cols), row, treeHeight);
  }

  lemma AppendAllShorter(seen: seq<int>, more: seq<int>, treeHeight: int)
    requires AllShorter(seen, treeHeight) && AllShorter(more, treeHeight)
    ensures AllShorter(seen + more, treeHeight)
  {
    forall k | 0 <= k < |seen + more|
      ensures (seen + more)[k] < treeHeight
    {
      if k >= |seen| {
        assert (seen + more)[k] == more[k - |seen|];
      }
    }
  }

  /** Every prefix of the rows stays inside the grid. */
  lemma PrefixInGrid(grid: Grid, rows: seq<int>, cols: seq<int>, i: nat)
    requires CellsInGrid(grid, rows, cols) && i <= |rows|
    ensures CellsInGrid(grid, rows[..i], cols)
  {
    forall k | 0 <= k < i
      ensures rows[..i][k] == rows[k]
    {
    }
  }

  /** `calculateVisibilityStatus`: walks the rows and, in each, the
      columns, counting the trees passed and stopping at the first one at
      least as tall. */
  method CalculateVisibilityStatus(treeHeight: int, rows: seq<int>, cols: seq<int>, grid: Grid)
    returns (status: VisibilityStatus)
    requires CellsInGrid(grid, rows, cols)
    ensures status == View(treeHeight, RayHeights(grid, rows, cols))
  {
    var viewingDistance := 0;
    for i := 0 to |rows|
      invariant CellsInGrid(grid, rows[..i], cols)
      invariant viewingDistance == |RayHeights(grid, rows[..i], cols)|
      invariant AllShorter(RayHeights(grid, rows[..i], cols), treeHeight)
    {
      RayHeightsNextRow(grid, rows, cols, i);
      for j := 0 to |cols|
        invariant viewingDistance == |RayHeights(grid, rows[..i], cols)| + j
        invariant forall m :: 0 <= m < j ==> grid[rows[i]][cols[m]] < treeHeight
      {
        viewingDistance := viewingDistance + 1;
        if grid[rows[i]][cols[j]] >= treeHeight {
          StopsInRow(treeHeight, grid, rows, cols, i, j);
          return VisibilityStatus(false, viewingDistance);
        }
      }
      PassesRow(treeHeight, grid, rows, cols, i);
    }
    assert rows[..|rows|] == rows;
    ViewMeaning(treeHeight, RayHeights(grid, rows, cols));
    status := VisibilityStatus(true, viewingDistance);
  }

  /** `treeRow - 1 downTo 0`. */
  function DownToZero(start: int): (r: seq<int>)
    ensures |r| == if start < 0 then 0 else start + 1
    ensures forall k :: 0 <= k < |r| ==> r[k] == start - k
  {
    if start < 0 then [] else seq(start + 1, k => start - k)
  }

  /** `start until end`. */
  function Until(start: int, end: int): (r: seq<int>)
    ensures |r| == if end <= start then 0 else end - start
    ensures forall k :: 0 <= k < |r| ==> r[k] == start + k
  {
    if end <= start then [] else seq(end - start, k => start + k)
  }

  function UpRay(treeRow: int): seq<int> { DownToZero(treeRow - 1) }
  function DownRay(grid: Grid, treeRow: int): seq<int> { Until(treeRow + 1, |grid|) }
  function LeftRay(treeCol: int): seq<int> { DownToZero(treeCol - 1) }
  function RightRay(grid: Grid, treeRow: int, treeCol: int): seq<int>
    requires 0 <= treeRow < |grid|
  {
    Until(treeCol + 1, |grid[treeRow]|)
  }

  /** The views from a tree up, down, left and right. */
  function Statuses(grid: Grid, treeRow: int, treeCol: int): (r: seq<VisibilityStatus>)
    requires Rectangular(grid) && InBounds(grid, treeRow, treeCol)
    ensures |r| == 4
  {
    var height := grid[treeRow][treeCol];
    ColumnCells(grid, UpRay(treeRow), treeCol);
    ColumnCells(grid, DownRay(grid, treeRow), treeCol);
    RowCells(grid, treeRow, LeftRay(treeCol));
    RowCells(grid, treeRow, RightRay(grid, treeRow, treeCol));
    [View(height, RayHeights(grid, UpRay(treeRow), [treeCol])),
     View(height, RayHeights(grid, DownRay(grid, treeRow), [treeCol])),
     View(height, RayHeights(grid, [treeRow], LeftRay(treeCol))),
     View(height, RayHeights(grid, [treeRow], RightRay(grid, treeRow, treeCol)))]
  }

  /** `calculateVisibilityStatuses`. */
  method CalculateVisibilityStatuses(treeRow: int, treeCol: int, grid: Grid)
    returns (statuses: seq<VisibilityStatus>)
    requires Rectangular(grid) && InBounds(grid, treeRow, treeCol)
    ensures statuses == Statuses(grid, treeRow, treeCol)
  {
    var height := grid[treeRow][treeCol];
    ColumnCells(grid, UpRay(treeRow), treeCol);
    ColumnCells(grid, DownRay(grid, treeRow), treeCol);
    RowCells(grid, treeRow, LeftRay(treeCol));
    RowCells(grid, treeRow, RightRay(grid, treeRow, treeCol));
    var up := CalculateVisibilityStatus(height, UpRay(treeRow), [treeCol], grid);
    var down := CalculateVisibilityStatus(height, DownRay(grid, treeRow), [treeCol], grid);
    var left := CalculateVisibilityStatus(height, [treeRow], LeftRay(treeCol), grid);
    var right := CalculateVisibilityStatus(height, [treeRow], RightRay(grid, treeRow, treeCol), grid);
    statuses := [up, down, left, right];
  }

  /** A tree is visible when one of its four views is clear. */
  predicate Visible(grid: Grid, treeRow: int, treeCol: int)
    requires Rectangular(grid) && InBounds(grid, treeRow, treeCol)
  {
    var s := Statuses(grid, treeRow, treeCol);
    s[0].visible || s[1].visible || s[2].visible || s[3].visible
  }

  /** The product of a sequence, folded from the left starting at 1. */
  function Product(s: seq<int>): int {
    if s == [] then 1 else Product(s[..|s| - 1]) * s[|s| - 1]
  }

  function ViewingDistances(statuses: seq<VisibilityStatus>): (r: seq<int>)
    ensures |r| == |statuses| && forall k :: 0 <= k < |r| ==> r[k] == statuses[k].viewingDistance
  {
    seq(|statuses|, k requires 0 <= k < |statuses| => statuses[k].viewingDistance)
  }

  /** The product of the four viewing distances. */
  function ScenicScore(grid: Grid, treeRow: int, treeCol: int): int
    requires Rectangular(grid) && InBounds(grid, treeRow, treeCol)
  {
    Product(ViewingDistances(Statuses(grid, treeRow, treeCol)))
  }

  /** `isVisible`. */
  method IsVisible(treeRow: int, treeCol: int, grid: Grid) returns (visible: bool)
    requires Rectangular(grid) && InBounds(grid, treeRow, treeCol)
    ensures visible == Visible(grid, treeRow, treeCol)
  {
    var statuses := CalculateVisibilityStatuses(treeRow, treeCol, grid);
    visible := statuses[0].visible || statuses[1].visible || statuses[2].visible || statuses[3].visible;
  }

  /** `fold(1) { acc, next -> acc * next }`. */
  method MultiplyAll(factors: seq<int>) returns (product: int)
    ensures product == Product(factors)
  {
    product := 1;
    for k := 0 to |factors|
      invariant product == Product(factors[..k])
    {
      assert factors[..k + 1][..k] == factors[..k];
      product := product * factors[k];
    }
    assert factors[..|factors|] == factors;
  }

  /** `calculateViewingDistance`. */
  method CalculateViewingDistance(treeRow: int, treeCol: int, grid: Grid) returns (score: int)
    requires Rectangular(grid) && InBounds(grid, treeRow, treeCol)
    ensures score == ScenicScore(grid, treeRow, treeCol)
  {
    var statuses := CalculateVisibilityStatuses(treeRow, treeCol, grid);
    score := MultiplyAll(ViewingDistances(statuses));
  }

  /** Clear upwards: every tree above is shorter. */
  lemma ClearUp(grid: Grid, treeRow: int, treeCol: int)
    requires Rectangular(grid) && InBounds(grid, treeRow, treeCol)
    ensures CellsInGrid(grid, UpRay(treeRow), [treeCol])
    ensures AllShorter(RayHeights(grid, UpRay(treeRow), [treeCol]), grid[treeRow][treeCol]) <==>
      forall k :: 0 <= k < treeRow ==> grid[k][treeCol] < grid[treeRow][treeCol]
  {
    ColumnRay(grid, UpRay(treeRow), treeCol);
    var ray := RayHeights(grid, UpRay(treeRow), [treeCol]);
    assert forall k :: 0 <= k < treeRow ==> grid[k][treeCol] == ray[treeRow - 1 - k];
  }

  /** Clear downwards: every tree below is shorter. */
  lemma ClearDown(grid: Grid, treeRow: int, treeCol: int)
    requires Rectangular(grid) && InBounds(grid, treeRow, treeCol)
    ensures CellsInGrid(grid, DownRay(grid, treeRow), [treeCol])
    ensures AllShorter(RayHeights(grid, DownRay(grid, treeRow), [treeCol]), grid[treeRow][treeCol]) <==>
      forall k :: treeRow < k < |grid| ==> grid[k][treeCol] < grid[treeRow][treeCol]
  {
    var rows := DownRay(grid, treeRow);
    ColumnRay(grid, rows, treeCol);
    ColumnSuffixAllShorter(grid, RayHeights(grid, rows, [treeCol]), rows, treeCol, treeRow + 1, grid[treeRow][treeCol]);
  }

  /** A ray down a column from row `start` to the bottom is clear exactly
      when that stretch of the column is. */
  lemma ColumnSuffixAllShorter(grid: Grid, ray: seq<int>, rows: seq<int>, col: int, start: nat, h: int)
    requires Rectangular(grid) && 0 <= col < |grid[0]|
    requires start <= |grid| && |rows| == |grid| - start && |ray| == |rows|
    requires forall m :: 0 <= m < |rows| ==> rows[m] == start + m
    requires forall m :: 0 <= m < |rows| ==> 0 <= rows[m] < |grid| && ray[m] == grid[rows[m]][col]
    ensures AllShorter(ray, h) <==> forall k :: start <= k < |grid| ==> grid[k][col] < h
  {
    if AllShorter(ray, h) {
      forall k | start <= k < |grid|
        ensures grid[k][col] < h
      {
        assert rows[k - start] == k;
        assert ray[k - start] < h;
      }
    }
    if forall k :: start <= k < |grid| ==> grid[k][col] < h {
      forall m | 0 <= m < |ray|
        ensures ray[m] < h
      {
        assert rows[m] == start + m;
      }
    }
  }

  /** A ray along a row from column `start` to the end is clear exactly
      when that stretch of the row is. */
  lemma RowSuffixAllShorter(line: seq<int>, ray: seq<int>, cols: seq<int>, start: nat, h: int)
    requires start <= |line| && |cols| == |line| - start && |ray| == |cols|
    requires forall m :: 0 <= m < |cols| ==> cols[m] == start + m
    requires forall m :: 0 <= m < |cols| ==> 0 <= cols[m] < |line| && ray[m] == line[cols[m]]
    ensures AllShorter(ray, h) <==> forall k :: start <= k < |line| ==> line[k] < h
  {
    if AllShorter(ray, h) {
      forall k | start <= k < |line|
        ensures line[k] < h
      {
        assert cols[k - start] == k;
        assert ray[k - start] < h;
      }
    }
    if forall k :: start <= k < |line| ==> line[k] < h {
      forall m | 0 <= m < |ray|
        ensures ray[m] < h
      {
        assert cols[m] == start + m;
      }
    }
  }

  /** Clear to the left: every tree on the left is shorter. */
  lemma ClearLeft(grid: Grid, treeRow: int, treeCol: int)
    requires Rectangular(grid) && InBounds(grid, treeRow, treeCol)
    ensures CellsInGrid(grid, [treeRow], LeftRay(treeCol))
    ensures AllShorter(RayHeights(grid, [treeRow], LeftRay(treeCol)), grid[treeRow][treeCol]) <==>
      forall k :: 0 <= k < treeCol ==> grid[treeRow][k] < grid[treeRow][treeCol]
  {
    RowRay(grid, treeRow, LeftRay(treeCol));
    var ray := RowHeights(grid[treeRow], LeftRay(treeCol));
    assert forall k :: 0 <= k < treeCol ==> grid[treeRow][k] == ray[treeCol - 1 - k];
  }

  /** Clear to the right: every tree on the right is shorter. */
  lemma ClearRight(grid: Grid, treeRow: int, treeCol: int)
    requires Rectangular(grid) && InBounds(grid, treeRow, treeCol)
    ensures CellsInGrid(grid, [treeRow], RightRay(grid, treeRow, treeCol))
    ensures AllShorter(RayHeights(grid, [treeRow], RightRay(grid, treeRow, treeCol)), grid[treeRow][treeCol]) <==>
      forall k :: treeCol < k < |grid[treeRow]| ==> grid[treeRow][k] < grid[treeRow][treeCol]
  {
    var cols := RightRay(grid, treeRow, treeCol);
    RowRay(grid, treeRow, cols);
    RowSuffixAllShorter(grid[treeRow], RowHeights(grid[treeRow], cols), cols, treeCol + 1, grid[treeRow][treeCol]);
  }

  /** A tree is visible exactly when, in one of the four directions, every
      tree up to the edge is strictly shorter. */
  lemma VisibleMeaning(grid: Grid, treeRow: int, treeCol: int)
    requires Rectangular(grid) && InBounds(grid, treeRow, treeCol)
    ensures var h := grid[treeRow][treeCol];
      Visible(grid, treeRow, treeCol) <==>
        (forall k :: 0 <= k < treeRow ==> grid[k][treeCol] < h) ||
        (forall k :: treeRow < k < |grid| ==> grid[k][treeCol] < h) ||
        (forall k :: 0 <= k < treeCol ==> grid[treeRow][k] < h) ||
        (forall k :: treeCol < k < |grid[treeRow]| ==> grid[treeRow][k] < h)
  {
    var h := grid[treeRow][treeCol];
    ClearUp(grid, treeRow, treeCol);
    ClearDown(grid, treeRow, treeCol);
    ClearLeft(grid, treeRow, treeCol);
    ClearRight(grid, treeRow, treeCol);
    ViewMeaning(h, RayHeights(grid, UpRay(treeRow), [treeCol]));
    ViewMeaning(h, RayHeights(grid, DownRay(grid, treeRow), [treeCol]));
    ViewMeaning(h, RayHeights(grid, [treeRow], LeftRay(treeCol)));
    ViewMeaning(h, RayHeights(grid, [treeRow], RightRay(grid, treeRow, treeCol)));
  }

  /** Every tree on the edge of the grid is visible. */
  lemma EdgeVisible(grid: Grid, treeRow: int, treeCol: int)
    requires Rectangular(grid) && InBounds(grid, treeRow, treeCol)
    requires treeRow == 0 || treeRow == |grid| - 1 || treeCol == 0 || treeCol == |grid[treeRow]| - 1
    ensures Visible(grid, treeRow, treeCol)
  {
    VisibleMeaning(grid, treeRow, treeCol);
  }

  // ---------------------------------------------------------------------
  // Counting
  // ---------------------------------------------------------------------

  /** Visibility as a predicate on positions, false outside the grid. */
  function VisibleAt(grid: Grid): (int, int) -> bool {
    (r, c) => Rectangular(grid) && InBounds(grid, r, c) && Visible(grid, r, c)
  }

  /** The positions of row `i` in the columns `from until upTo` that
      satisfy `p`. */
  function CountInRow(p: (int, int) -> bool, i: int, from: int, upTo: int): nat
    decreases upTo - from
  {
    if upTo <= from then 0
    else CountInRow(p, i, from, upTo - 1) + if p(i, upTo - 1) then 1 else 0
  }

  /** The positions in the rows `rowFrom until rowTo` and the columns
      `from until upTo` that satisfy `p`. */
  function CountInRows(p: (int, int) -> bool, rowFrom: int, rowTo: int, from: int, upTo: int): nat
    decreases rowTo - rowFrom
  {
    if rowTo <= rowFrom then 0
    else CountInRows(p, rowFrom, rowTo - 1, from, upTo) + CountInRow(p, rowTo - 1, from, upTo)
  }

  /** One more row adds its own count. */
  lemma CountInRowsStep(p: (int, int) -> bool, rowFrom: int, row: int, from: int, upTo: int)
    requires rowFrom <= row
    ensures CountInRows(p, rowFrom, row + 1, from, upTo) == CountInRows(p, rowFrom, row, from, upTo) + CountInRow(p, row, from, upTo)
  {
  }

  /** Every visible tree of the grid. */
  function CountVisible(grid: Grid): nat
    requires Rectangular(grid)
  {
    CountInRows(VisibleAt(grid), 0, |grid|, 0, |grid[0]|)
  }

  /** The number of trees on the edge of a `rows` by `cols` grid. */
  function EdgeCount(rows: nat, cols: nat): nat {
    if rows <= 1 || cols <= 1 then rows * cols else 2 * rows + 2 * cols - 4
  }

  /** The count `part1` starts from. */
  function EdgeCountAsWritten(rows: int, cols: int): int {
    rows * 2 + cols * 2 - 4
  }

  /** What `part1` returns as written: the start count plus the visible
      interior trees. */
  function Part1AsWritten(grid: Grid): int
    requires Rectangular(grid)
  {
    EdgeCountAsWritten(|grid|, |grid[0]|) + CountInRows(VisibleAt(grid), 1, |grid| - 1, 1, |grid[0]| - 1)
  }

  /** A grid of a single tree: that tree is visible, but the start count
      as written is 0 and there is no interior. */
  lemma SingleTreeMiscounted()
    ensures Part1AsWritten([[5]]) == 0 && CountVisible([[5]]) == 1
  {
    EdgeVisible([[5]], 0, 0);
  }

  lemma {:induction false} CountInRowSplit(p: (int, int) -> bool, i: int, from: int, mid: int, upTo: int)
    requires from <= mid <= upTo
    ensures CountInRow(p, i, from, upTo) == CountInRow(p, i, from, mid) + CountInRow(p, i, mid, upTo)
    decreases upTo - mid
  {
    if mid < upTo {
      CountInRowSplit(p, i, from, mid, upTo - 1);
    }
  }

  lemma {:induction false} CountInRowsSplit(p: (int, int) -> bool, rowFrom: int, mid: int, rowTo: int, from: int, upTo: int)
    requires rowFrom <= mid <= rowTo
    ensures CountInRows(p, rowFrom, rowTo, from, upTo) ==
      CountInRows(p, rowFrom, mid, from, upTo) + CountInRows(p, mid, rowTo, from, upTo)
    decreases rowTo - mid
  {
    if mid < rowTo {
      CountInRowsSplit(p, rowFrom, mid, rowTo - 1, from, upTo);
    }
  }

  /** A row where every position counts. */
  lemma {:induction false} FullRowCount(p: (int, int) -> bool, i: int, upTo: nat)
    requires forall j :: 0 <= j < upTo ==> p(i, j)
    ensures CountInRow(p, i, 0, upTo) == upTo
    decreases upTo
  {
    if upTo > 0 {
      FullRowCount(p, i, upTo - 1);
    }
  }

  lemma {:induction false} CountInRowsEmptyRange(p: (int, int) -> bool, rowFrom: int, rowTo: int, from: int, upTo: int)
    requires upTo <= from
    ensures CountInRows(p, rowFrom, rowTo, from, upTo) == 0
    decreases rowTo - rowFrom
  {
    if rowFrom < rowTo {
      CountInRowsEmptyRange(p, rowFrom, rowTo - 1, from, upTo);
    }
  }

  predicate EndsCount(p: (int, int) -> bool, i: int, cols: int) {
    p(i, 0) && p(i, cols - 1)
  }

  /** Rows whose two end positions count contribute two each plus their
      inner positions. */
  lemma {:induction false} InnerRowsCount(p: (int, int) -> bool, rowFrom: int, rowTo: int, cols: int)
    requires rowFrom <= rowTo && cols >= 2
    requires forall i :: rowFrom <= i < rowTo ==> EndsCount(p, i, cols)
    ensures CountInRows(p, rowFrom, rowTo, 0, cols) == 2 * (rowTo - rowFrom) + CountInRows(p, rowFrom, rowTo, 1, cols - 1)
    decreases rowTo - rowFrom
  {
    if rowFrom < rowTo {
      var last := rowTo - 1;
      assert EndsCount(p, last, cols);
      InnerRowsCount(p, rowFrom, last, cols);
      CountInRowSplit(p, last, 0, 1, cols);
      CountInRowSplit(p, last, 1, cols - 1, cols);
      assert CountInRow(p, last, 0, 0) == 0 && CountInRow(p, last, cols - 1, cols - 1) == 0;
    }
  }

  /** A single column where every position counts. */
  lemma {:induction false} SingleColumnCount(p: (int, int) -> bool, rowTo: nat)
    requires forall i :: 0 <= i < rowTo ==> p(i, 0)
    ensures CountInRows(p, 0, rowTo, 0, 1) == rowTo
    decreases rowTo
  {
    if rowTo > 0 {
      SingleColumnCount(p, rowTo - 1);
      assert CountInRow(p, rowTo - 1, 0, 0) == 0;
    }
  }

  /** Every position on the edge of a `rows` by `cols` grid counts. */
  predicate EdgesCount(p: (int, int) -> bool, rows: int, cols: int) {
    forall i, j :: 0 <= i < rows && 0 <= j < cols && (i == 0 || i == rows - 1 || j == 0 || j == cols - 1) ==> p(i, j)
  }

  /** Counting the edge positions, all of which count, then the inner
      ones, gives every position that counts. */
  lemma EdgesAndInteriorCount(p: (int, int) -> bool, rows: nat, cols: nat)
    requires EdgesCount(p, rows, cols)
    ensures EdgeCount(rows, cols) + CountInRows(p, 1, rows - 1, 1, cols - 1) == CountInRows(p, 0, rows, 0, cols)
  {
    if cols == 0 {
      CountInRowsEmptyRange(p, 1, rows - 1, 1, cols - 1);
      CountInRowsEmptyRange(p, 0, rows, 0, 0);
    } else if rows == 1 {
      FullRowCount(p, 0, cols);
      assert CountInRows(p, 0, 0, 0, cols) == 0;
      assert CountInRows(p, 1, 0, 1, cols - 1) == 0;
    } else if rows == 0 {
      assert CountInRows(p, 1, -1, 1, cols - 1) == 0;
    } else if cols == 1 {
      SingleColumnCount(p, rows);
      CountInRowsEmptyRange(p, 1, rows - 1, 1, 0);
    } else {
      CountInRowsSplit(p, 0, 1, rows, 0, cols);
      CountInRowsSplit(p, 1, rows - 1, rows, 0, cols);
      assert forall i :: 1 <= i < rows - 1 ==> EndsCount(p, i, cols);
      FullRowCount(p, 0, cols);
      FullRowCount(p, rows - 1, cols);
      assert CountInRows(p, 0, 0, 0, cols) == 0 && CountInRows(p, rows - 1, rows - 1, 0, cols) == 0;
      InnerRowsCount(p, 1, rows - 1, cols);
    }
  }

  /** The edge count plus the visible inner trees is the number of visible
      trees. */
  lemma EdgesAndInterior(grid: Grid)
    requires Rectangular(grid)
    ensures EdgeCount(|grid|, |grid[0]|) + CountInRows(VisibleAt(grid), 1, |grid| - 1, 1, |grid[0]| - 1) == CountVisible(grid)
  {
    EdgesVisibleAt(grid);
    EdgesAndInteriorCount(VisibleAt(grid), |grid|, |grid[0]|);
  }

  lemma EdgesVisibleAt(grid: Grid)
    requires Rectangular(grid)
    ensures EdgesCount(VisibleAt(grid), |grid|, |grid[0]|)
  {
    var rows, cols := |grid|, |grid[0]|;
    forall i, j | 0 <= i < rows && 0 <= j < cols && (i == 0 || i == rows - 1 || j == 0 || j == cols - 1)
      ensures VisibleAt(grid)(i, j)
    {
      EdgeVisible(grid, i, j);
    }
  }

  /** `part1`, with the start count taken as the number of edge trees:
      every visible tree is counted once. */
  method Part1(grid: Grid) returns (countVisible: int)
    requires Rectangular(grid)
    ensures countVisible == CountVisible(grid)
  {
    ghost var p := VisibleAt(grid);
    countVisible := EdgeCount(|grid|, |grid[0]|);
    var i := 1;
    while i < |grid| - 1
      invariant 1 <= i && (i <= |grid| - 1 || i == 1)
      invariant countVisible == EdgeCount(|grid|, |grid[0]|) + CountInRows(p, 1, i, 1, |grid[0]| - 1)
    {
      var inRow := CountVisibleInRow(grid, i);
      CountInRowsStep(p, 1, i, 1, |grid[0]| - 1);
      countVisible := countVisible + inRow;
      i := i + 1;
    }
    if |grid| < 2 {
      assert CountInRows(p, 1, i, 1, |grid[0]| - 1) == CountInRows(p, 1, |grid| - 1, 1, |grid[0]| - 1) == 0;
    }
    EdgesAndInterior(grid);
  }

  /** The inner loop of `part1`: the visible trees of row `i` between its
      first and last column. */
  method CountVisibleInRow(grid: Grid, i: int) returns (count: nat)
    requires Rectangular(grid) && 0 <= i < |grid|
    ensures count == CountInRow(VisibleAt(grid), i, 1, |grid[0]| - 1)
  {
    ghost var p := VisibleAt(grid);
    var n := |grid[i]|;
    assert n == |grid[0]|;
    count := 0;
    var j := 1;
    while j < n - 1
      invariant 1 <= j && (j <= n - 1 || j == 1)
      invariant count == CountInRow(p, i, 1, j)
    {
      var visible := IsVisible(i, j, grid);
      CountInRowStep(p, i, j, visible);
      if visible {
        count := count + 1;
      }
      j := j + 1;
    }
  }

  lemma CountInRowStep(p: (int, int) -> bool, i: int, j: int, counted: bool)
    requires 1 <= j && counted == p(i, j)
    ensures CountInRow(p, i, 1, j + 1) == CountInRow(p, i, 1, j) + if counted then 1 else 0
  {
  }

  predicate Interior(grid: Grid, i: int, j: int) {
    1 <= i < |grid| - 1 && 1 <= j < |grid[i]| - 1
  }

  /** Every inner tree before row `i`, column `j` scores at most `best`. */
  ghost predicate ScoresAtMost(grid: Grid, best: int, i: int, j: int)
    requires Rectangular(grid)
  {
    forall r, c :: Interior(grid, r, c) && (r < i || (r == i && c < j)) ==> ScenicScore(grid, r, c) <= best
  }

  /** `best` is 0 or the score of some inner tree. */
  ghost predicate Attained(grid: Grid, best: int)
    requires Rectangular(grid)
  {
    best == 0 || exists r, c :: Interior(grid, r, c) && ScenicScore(grid, r, c) == best
  }

  lemma ScoresAtMostStep(grid: Grid, best: int, best': int, i: int, j: int)
    requires Rectangular(grid) && Interior(grid, i, j)
    requires ScoresAtMost(grid, best, i, j) && best <= best' && ScenicScore(grid, i, j) <= best'
    ensures ScoresAtMost(grid, best', i, j + 1)
  {
  }

  lemma ScoresAtMostNextRow(grid: Grid, best: int, i: int)
    requires Rectangular(grid) && 1 <= i
    requires ScoresAtMost(grid, best, i, if |grid[0]| <= 2 then 1 else |grid[0]| - 1)
    ensures ScoresAtMost(grid, best, i + 1, 1)
  {
  }

  /** `part2`: the highest scenic score of an inner tree, or 0 when there
      is no inner tree. */
  method Part2(grid: Grid) returns (maxViewingDistance: int)
    requires grid == [] || Rectangular(grid)
    ensures forall i, j :: Interior(grid, i, j) ==> ScenicScore(grid, i, j) <= maxViewingDistance
    ensures maxViewingDistance == 0 || exists i, j :: Interior(grid, i, j) && ScenicScore(grid, i, j) == maxViewingDistance
    ensures maxViewingDistance >= 0
  {
    maxViewingDistance := 0;
    if grid == [] {
      // both loops of the source run zero times on an empty grid
      return;
    }
    var i := 1;
    while i < |grid| - 1
      invariant 1 <= i
      invariant maxViewingDistance >= 0 && Attained(grid, maxViewingDistance)
      invariant ScoresAtMost(grid, maxViewingDistance, i, 1)
    {
      var j := 1;
      while j < |grid[i]| - 1
        invariant 1 <= j && (j <= |grid[i]| - 1 || j == 1)
        invariant maxViewingDistance >= 0 && Attained(grid, maxViewingDistance)
        invariant ScoresAtMost(grid, maxViewingDistance, i, j)
      {
        var viewingDistance := CalculateViewingDistance(i, j, grid);
        ghost var before := maxViewingDistance;
        if viewingDistance > maxViewingDistance {
          maxViewingDistance := viewingDistance;
        }
        ScoresAtMostStep(grid, before, maxViewingDistance, i, j);
        j := j + 1;
      }
      ScoresAtMostNextRow(grid, maxViewingDistance, i);
      i := i + 1;
    }
    assert ScoresAtMost(grid, maxViewingDistance, i, 1);
  }

  lemma {:induction false} ProductZero(s: seq<int>, k: int)
    requires 0 <= k < |s| && s[k] == 0
    ensures Product(s) == 0
  {
    if k < |s| - 1 {
      ProductZero(s[..|s| - 1], k);
    }
  }

  /** A tree on the edge has an empty view on one side, so its scenic
      score is 0: leaving the edge out of `part2` loses nothing. */
  lemma EdgeScoresZero(grid: Grid, treeRow: int, treeCol: int)
    requires Rectangular(grid) && InBounds(grid, treeRow, treeCol)
    requires treeRow == 0 || treeRow == |grid| - 1 || treeCol == 0 || treeCol == |grid[treeRow]| - 1
    ensures ScenicScore(grid, treeRow, treeCol) == 0
  {
    var distances := ViewingDistances(Statuses(grid, treeRow, treeCol));
    if treeRow == 0 {
      ColumnRay(grid, UpRay(treeRow), treeCol);
      ProductZero(distances, 0);
    } else if treeRow == |grid| - 1 {
      ColumnRay(grid, DownRay(grid, treeRow), treeCol);
      ProductZero(distances, 1);
    } else if treeCol == 0 {
      RowRay(grid, treeRow, LeftRay(treeCol));
      ProductZero(distances, 2);
    } else {
      RowRay(grid, treeRow, RightRay(grid, treeRow, treeCol));
      ProductZero(distances, 3);
    }
  }

  const Sample: Grid := [[3, 0, 3, 7, 3], [2, 5, 5, 1, 2], [6, 5, 3, 3, 2], [3, 3, 5, 4, 9], [3, 5, 3, 9, 0]]

  lemma ProductOfFour(s: seq<int>)
    requires |s| == 4
    ensures Product(s) == s[0] * s[1] * s[2] * s[3]
  {
    var s3, s2, s1 := s[..3], s[..2], s[..1];
    assert s3[..2] == s2 && s2[..1] == s1 && s1[..0] == [];
    assert Product(s1) == s[0];
    assert Product(s2) == s[0] * s[1];
    assert Product(s3) == s[0] * s[1] * s[2];
  }

  lemma SampleUp(grid: Grid)
    requires grid == Sample
    ensures CellsInGrid(grid, UpRay(3), [2]) && View(5, RayHeights(grid, UpRay(3), [2])).viewingDistance == 2
  {
    ColumnRay(grid, UpRay(3), 2);
    ViewStopsAt(5, RayHeights(grid, UpRay(3), [2]), 1);
  }

  lemma SampleDown(grid: Grid)
    requires grid == Sample
    ensures CellsInGrid(grid, DownRay(grid, 3), [2]) && View(5, RayHeights(grid, DownRay(grid, 3), [2])).viewingDistance == 1
  {
    ColumnRay(grid, DownRay(grid, 3), 2);
    ViewMeaning(5, RayHeights(grid, DownRay(grid, 3), [2]));
  }

  lemma SampleLeft(grid: Grid)
    requires grid == Sample
    ensures CellsInGrid(grid, [3], LeftRay(2)) && View(5, RayHeights(grid, [3], LeftRay(2))).viewingDistance == 2
  {
    RowRay(grid, 3, LeftRay(2));
    ViewMeaning(5, RayHeights(grid, [3], LeftRay(2)));
  }

  lemma SampleRight(grid: Grid)
    requires grid == Sample
    ensures CellsInGrid(grid, [3], RightRay(grid, 3, 2)) && View(5, RayHeights(grid, [3], RightRay(grid, 3, 2))).viewingDistance == 2
  {
    RowRay(grid, 3, RightRay(grid, 3, 2));
    ViewStopsAt(5, RayHeights(grid, [3], RightRay(grid, 3, 2)), 1);
  }

  /** The tree of height 5 in the middle of the fourth row sees 2 trees up,
      1 down, 2 left and 2 right: its score is 8. */
  lemma SampleBestScore(grid: Grid)
    requires grid == Sample
    ensures ScenicScore(grid, 3, 2) == 8
  {
    SampleUp(grid);
    SampleDown(grid);
    SampleLeft(grid);
    SampleRight(grid);
    var statuses := Statuses(grid, 3, 2);
    assert statuses[0].viewingDistance == 2 && statuses[1].viewingDistance == 1;
    assert statuses[2].viewingDistance == 2 && statuses[3].viewingDistance == 2;
    ProductOfFour(ViewingDistances(statuses));
  }
}

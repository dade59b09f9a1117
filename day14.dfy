/** Regolith reservoir: rock segments drawn into a sparse grid, then
    grains of sand poured from (500,0) one at a time until a grain falls
    into the abyss or the source itself is covered. */
module Day14 {
  import opened Common

  datatype Cell = Cell(x: int, y: int)

  /** `SAND_START`: where every grain appears. */
  const Source := Cell(500, 0)

  /** One segment of a rock path. */
  datatype Line = Line(start: Cell, end: Cell) {
    predicate IsVertical() {
      start.x == end.x
    }
  }

  datatype Item = Air | Rock | Sand

  /** The sparse grid: a missing key is air. */
  type Grid = map<Cell, Item>

  datatype Bounds = Bounds(minX: int, minY: int, maxX: int, maxY: int)

  // ---------------------------------------------------------------------
  // Drawing the rock paths

  /** The integer points of a segment, both endpoints included, whichever
      way it runs. A segment whose endpoints differ in x is drawn along
      the row of its end point. */
  predicate OnSegment(line: Line, c: Cell) {
    if line.IsVertical() then
      c.x == line.start.x && Min(line.start.y, line.end.y) <= c.y <= Max(line.start.y, line.end.y)
    else
      c.y == line.end.y && Min(line.start.x, line.end.x) <= c.x <= Max(line.start.x, line.end.x)
  }

  predicate OnAnyLine(lines: seq<Line>, c: Cell) {
    exists i :: 0 <= i < |lines| && OnSegment(lines[i], c)
  }

  /** `from until to + 1` when `from < to`, otherwise `from downTo to`. */
  function Range(from: int, to: int): (r: seq<int>)
    ensures forall v :: v in r <==> Min(from, to) <= v <= Max(from, to)
  {
    if from < to then
      var r := seq(to - from + 1, i => from + i);
      forall v | from <= v <= to
        ensures v in r
      {
        assert r[v - from] == v;
      }
      r
    else
      var r := seq(from - to + 1, i => from - i);
      forall v | to <= v <= from
        ensures v in r
      {
        assert r[from - v] == v;
      }
      r
  }

  /** The cell a range value stands for on a segment. */
  function Point(line: Line, v: int): Cell {
    if line.IsVertical() then Cell(line.start.x, v) else Cell(v, line.end.y)
  }

  /** The range the source iterates over for a segment. */
  function SegmentRange(line: Line): seq<int> {
    if line.IsVertical() then Range(line.start.y, line.end.y)
    else Range(line.start.x, line.end.x)
  }

  lemma SegmentPoints(line: Line, c: Cell)
    ensures OnSegment(line, c) <==> exists j :: 0 <= j < |SegmentRange(line)| && Point(line, SegmentRange(line)[j]) == c
  {
    var r := SegmentRange(line);
    if OnSegment(line, c) {
      var v := if line.IsVertical() then c.y else c.x;
      assert v in r;
      var j :| 0 <= j < |r| && r[j] == v;
      assert Point(line, r[j]) == c;
    }
  }

  /** One segment of `fillGrid`: every point on it becomes rock and
      nothing else changes. */
  method DrawLine(grid: Grid, line: Line) returns (drawn: Grid)
    ensures forall c :: c in drawn <==> c in grid || OnSegment(line, c)
    ensures forall c :: c in drawn ==> drawn[c] == if OnSegment(line, c) then Rock else grid[c]
  {
    var range := SegmentRange(line);
    drawn := grid;
    ghost var marked: set<Cell> := {};
    for i := 0 to |range|
      invariant forall j :: 0 <= j < i ==> Point(line, range[j]) in marked
      invariant forall c :: c in marked ==> OnSegment(line, c)
      invariant forall c :: c in drawn <==> c in grid || c in marked
      invariant forall c :: c in drawn ==> drawn[c] == if c in marked then Rock else grid[c]
    {
      var p := Point(line, range[i]);
      assert range[i] in range;
      drawn := drawn[p := Rock];
      marked := marked + {p};
    }
    forall c | OnSegment(line, c)
      ensures c in marked
    {
      SegmentPoints(line, c);
    }
  }

  lemma OnAnyLineNext(lines: seq<Line>, k: int, c: Cell)
    requires 0 <= k < |lines|
    ensures OnAnyLine(lines[..k + 1], c) <==> OnAnyLine(lines[..k], c) || OnSegment(lines[k], c)
  {
    if OnAnyLine(lines[..k + 1], c) {
      var i :| 0 <= i < k + 1 && OnSegment(lines[..k + 1][i], c);
      if i < k {
        assert lines[..k][i] == lines[..k + 1][i];
      }
    }
    if OnAnyLine(lines[..k], c) {
      var i :| 0 <= i < k && OnSegment(lines[..k][i], c);
      assert lines[..k + 1][i] == lines[..k][i];
    }
    assert lines[..k + 1][k] == lines[k];
  }

  /** `fillGrid`: every point of every segment becomes rock, everything
      else is left as it was. */
  method FillGrid(grid: Grid, lines: seq<Line>) returns (filled: Grid)
    ensures forall c :: c in filled <==> c in grid || OnAnyLine(lines, c)
    ensures forall c :: c in filled ==> filled[c] == if OnAnyLine(lines, c) then Rock else grid[c]
  {
    filled := grid;
    for k := 0 to |lines|
      invariant forall c :: c in filled <==> c in grid || OnAnyLine(lines[..k], c)
      invariant forall c :: c in filled ==> filled[c] == if OnAnyLine(lines[..k], c) then Rock else grid[c]
    {
      filled := DrawLine(filled, lines[k]);
      forall c
        ensures OnAnyLine(lines[..k + 1], c) <==> OnAnyLine(lines[..k], c) || OnSegment(lines[k], c)
      {
        OnAnyLineNext(lines, k, c);
      }
    }
    assert lines[..|lines|] == lines;
  }

  // ---------------------------------------------------------------------
  // Bounds

  /** `minOf` over the segments. */
  function MinOf(lines: seq<Line>, key: Line -> int): (m: int)
    requires lines != []
    ensures exists i :: 0 <= i < |lines| && m == key(lines[i])
    ensures forall i :: 0 <= i < |lines| ==> m <= key(lines[i])
  {
    if |lines| == 1 then key(lines[0])
    else
      var rest := MinOf(lines[1..], key);
      assert forall i :: 1 <= i < |lines| ==> lines[i] == lines[1..][i - 1];
      Min(key(lines[0]), rest)
  }

  /** `maxOf` over the segments. */
  function MaxOf(lines: seq<Line>, key: Line -> int): (m: int)
    requires lines != []
    ensures exists i :: 0 <= i < |lines| && m == key(lines[i])
    ensures forall i :: 0 <= i < |lines| ==> m >= key(lines[i])
  {
    if |lines| == 1 then key(lines[0])
    else
      var rest := MaxOf(lines[1..], key);
      assert forall i :: 1 <= i < |lines| ==> lines[i] == lines[1..][i - 1];
      Max(key(lines[0]), rest)
  }

  predicate Inside(b: Bounds, c: Cell) {
    b.minX <= c.x <= b.maxX && b.minY <= c.y <= b.maxY
  }

  /** The smallest box around every endpoint and the source; `lines.minOf`
      throws on an empty list, so the caller handles that case. */
  function ComputeBounds(lines: seq<Line>): (b: Bounds)
    requires lines != []
    ensures Inside(b, Source)
    ensures forall i :: 0 <= i < |lines| ==> Inside(b, lines[i].start) && Inside(b, lines[i].end)
  {
    Bounds(
      Min(MinOf(lines, (l: Line) => Min(l.start.x, l.end.x)), Source.x),
      Min(MinOf(lines, (l: Line) => Min(l.start.y, l.end.y)), Source.y),
      Max(MaxOf(lines, (l: Line) => Max(l.start.x, l.end.x)), Source.x),
      Max(MaxOf(lines, (l: Line) => Max(l.start.y, l.end.y)), Source.y))
  }

  // ---------------------------------------------------------------------
  // One grain

  /** `sandFallingIntoAbyss`: in part one all four sides of the box are
      open; in part two only rows above the box or below the floor are. */
  predicate InAbyss(c: Cell, b: Bounds, partOne: bool) {
    if partOne then
      c.y - b.minY < 0 || c.y > b.maxY || c.x - b.minX < 0 || c.x > b.maxX
    else
      c.y - b.minY < 0 || c.y > b.maxY + 2
  }

  predicate AirAt(grid: Grid, c: Cell) {
    c !in grid || grid[c] == Air
  }

  predicate IsRock(grid: Grid, c: Cell) {
    c in grid && grid[c] == Rock
  }

  /** `checkIfAirInPosition`: the abyss counts as air; in part two the row
      two below the lowest rock is solid. */
  predicate IsAir(grid: Grid, c: Cell, b: Bounds, partOne: bool) {
    if InAbyss(c, b, partOne) then true
    else if !partOne && c.y == b.maxY + 2 then false
    else AirAt(grid, c)
  }

  /** Where a grain at `c` moves next: straight down, else down-left,
      else down-right, else nowhere (it comes to rest). */
  function Step(grid: Grid, c: Cell, b: Bounds, partOne: bool): (r: Option<Cell>)
    ensures r.Some? ==> r.value.y == c.y + 1 && Abs(r.value.x - c.x) <= 1 && IsAir(grid, r.value, b, partOne)
    ensures r.Some? && r.value.x != c.x ==> !IsAir(grid, Cell(c.x, c.y + 1), b, partOne)
    ensures r.Some? && r.value.x == c.x + 1 ==> !IsAir(grid, Cell(c.x - 1, c.y + 1), b, partOne)
    ensures r.None? <==>
      !IsAir(grid, Cell(c.x, c.y + 1), b, partOne) &&
      !IsAir(grid, Cell(c.x - 1, c.y + 1), b, partOne) &&
      !IsAir(grid, Cell(c.x + 1, c.y + 1), b, partOne)
  {
    var down := Cell(c.x, c.y + 1);
    var left := Cell(c.x - 1, c.y + 1);
    var right := Cell(c.x + 1, c.y + 1);
    if IsAir(grid, down, b, partOne) then Some(down)
    else if IsAir(grid, left, b, partOne) then Some(left)
    else if IsAir(grid, right, b, partOne) then Some(right)
    else None
  }

  /** The cell where a grain starting at `c` ends: the first one it rests
      on, or the first one in the abyss. */
  function Settle(grid: Grid, c: Cell, b: Bounds, partOne: bool): Cell
    requires c.y <= b.maxY + 3
    decreases b.maxY + 3 - c.y
  {
    if InAbyss(c, b, partOne) then c
    else
      match Step(grid, c, b, partOne)
      case None => c
      case Some(next) => Settle(grid, next, b, partOne)
  }

  /** A grain ends in the abyss or on a cell with nothing free below. */
  lemma {:induction false} SettleRests(grid: Grid, c: Cell, b: Bounds, partOne: bool)
    requires c.y <= b.maxY + 3
    ensures var r := Settle(grid, c, b, partOne);
      InAbyss(r, b, partOne) || Step(grid, r, b, partOne) == None
    decreases b.maxY + 3 - c.y
  {
    if !InAbyss(c, b, partOne) {
      match Step(grid, c, b, partOne)
      case None =>
      case Some(next) => SettleRests(grid, next, b, partOne);
    }
  }

  /** A grain only falls, spreading at most one column per row. */
  lemma {:induction false} SettleBelow(grid: Grid, c: Cell, b: Bounds, partOne: bool)
    requires c.y <= b.maxY + 3
    ensures var r := Settle(grid, c, b, partOne);
      r.y >= c.y && Abs(r.x - c.x) <= r.y - c.y
    decreases b.maxY + 3 - c.y
  {
    if !InAbyss(c, b, partOne) {
      match Step(grid, c, b, partOne)
      case None =>
      case Some(next) => SettleBelow(grid, next, b, partOne);
    }
  }

  /** In part two the floor catches every grain. */
  lemma {:induction false} FloorCatches(grid: Grid, c: Cell, b: Bounds)
    requires b.minY <= c.y <= b.maxY + 1
    ensures !InAbyss(Settle(grid, c, b, false), b, false)
    decreases b.maxY + 3 - c.y
  {
    match Step(grid, c, b, false)
    case None =>
    case Some(next) => FloorCatches(grid, next, b);
  }

  /** The path of a grain depends only on which cells below its start are
      air. */
  lemma {:induction false} SettleAgree(g1: Grid, g2: Grid, c: Cell, b: Bounds, partOne: bool)
    requires c.y <= b.maxY + 3
    requires forall d: Cell :: d.y > c.y && !InAbyss(d, b, partOne) ==> (AirAt(g1, d) <==> AirAt(g2, d))
    ensures Settle(g1, c, b, partOne) == Settle(g2, c, b, partOne)
    decreases b.maxY + 3 - c.y
  {
    if !InAbyss(c, b, partOne) {
      assert Step(g1, c, b, partOne) == Step(g2, c, b, partOne);
      match Step(g1, c, b, partOne)
      case None =>
      case Some(next) => SettleAgree(g1, g2, next, b, partOne);
    }
  }

  function SandCells(grid: Grid): set<Cell> {
    set c | c in grid && grid[c] == Sand
  }

  lemma SandCellsUpdate(grid: Grid, c: Cell, v: Item)
    ensures SandCells(grid[c := v]) == if v == Sand then SandCells(grid) + {c} else SandCells(grid) - {c}
  {
  }

  /** Nothing at or below row `y` has changed. */
  ghost predicate SameBelow(grid: Grid, grid0: Grid, y: int) {
    forall c: Cell :: c.y > y ==> (c in grid <==> c in grid0) && (c in grid ==> grid[c] == grid0[c])
  }

  /** What holds while a grain falls through `grid`, which was `grid0`
      when it appeared: nothing below it has changed, every cell it left
      is air again, and the only new sand is the grain itself. */
  ghost predicate Falling(grid0: Grid, grid: Grid, sand: Cell, b: Bounds, partOne: bool) {
    && SameBelow(grid, grid0, sand.y)
    && (!InAbyss(sand, b, partOne) ==>
          (sand == Source || AirAt(grid0, sand)) && SandCells(grid) == SandCells(grid0) + {sand})
    && (InAbyss(sand, b, partOne) ==> SandCells(grid) == SandCells(grid0))
    && (forall c: Cell :: c != Source ==> (IsRock(grid, c) <==> IsRock(grid0, c)))
    && (forall c: Cell :: 0 < c.y && c != sand && !InAbyss(c, b, partOne) ==> (AirAt(grid, c) <==> AirAt(grid0, c)))
  }

  /** The next move depends only on the cells below the grain. */
  lemma StepBelow(grid: Grid, grid0: Grid, sand: Cell, b: Bounds, partOne: bool)
    requires SameBelow(grid, grid0, sand.y)
    ensures Step(grid, sand, b, partOne) == Step(grid0, sand, b, partOne)
  {
    assert IsAir(grid, Cell(sand.x, sand.y + 1), b, partOne) == IsAir(grid0, Cell(sand.x, sand.y + 1), b, partOne);
    assert IsAir(grid, Cell(sand.x - 1, sand.y + 1), b, partOne) == IsAir(grid0, Cell(sand.x - 1, sand.y + 1), b, partOne);
    assert IsAir(grid, Cell(sand.x + 1, sand.y + 1), b, partOne) == IsAir(grid0, Cell(sand.x + 1, sand.y + 1), b, partOne);
  }

  /** The inner loop of `play`: one grain appears at the source and falls
      until it rests or leaves the bounds. Each cell it leaves is reset to
      air, so the only sand it adds is where it rests. */
  method DropGrain(grid0: Grid, b: Bounds, partOne: bool) returns (grid: Grid, sand: Cell)
    requires Inside(b, Source)
    requires Source !in SandCells(grid0)
    ensures sand == Settle(grid0, Source, b, partOne)
    ensures !InAbyss(sand, b, partOne) ==> sand !in SandCells(grid0) && SandCells(grid) == SandCells(grid0) + {sand}
    ensures InAbyss(sand, b, partOne) ==> SandCells(grid) == SandCells(grid0)
    ensures forall c: Cell :: c != Source ==> (IsRock(grid, c) <==> IsRock(grid0, c))
    ensures forall c: Cell :: 0 < c.y && c != sand && !InAbyss(c, b, partOne) ==> (AirAt(grid, c) <==> AirAt(grid0, c))
  {
    sand := Source;
    grid := grid0[sand := Sand];
    SandCellsUpdate(grid0, sand, Sand);
    var blocked := false;
    while !blocked && !InAbyss(sand, b, partOne)
      invariant 0 <= sand.y <= b.maxY + 3
      invariant !InAbyss(sand, b, partOne) ==> sand.y <= b.maxY + 2
      invariant Settle(grid0, sand, b, partOne) == Settle(grid0, Source, b, partOne)
      invariant blocked ==> !InAbyss(sand, b, partOne) && Step(grid0, sand, b, partOne) == None
      invariant Falling(grid0, grid, sand, b, partOne)
      decreases b.maxY + 3 - sand.y, if blocked then 0 else 1
    {
      // the three tries of the source, in its order (down, down-left, down-right)
      var next := Step(grid, sand, b, partOne);
      StepBelow(grid, grid0, sand, b, partOne);
      match next
      case Some(cell) =>
        grid := Move(grid0, grid, sand, cell, b, partOne);
        sand := cell;
      case None =>
        blocked := true;
    }
  }

  /** One move of the falling grain: its cell is reset to air and, unless
      it left the bounds, the cell it moves to becomes sand. */
  method Move(ghost grid0: Grid, grid: Grid, sand: Cell, next: Cell, b: Bounds, partOne: bool) returns (moved: Grid)
    requires !InAbyss(sand, b, partOne) && 0 <= sand.y <= b.maxY + 2
    requires Step(grid0, sand, b, partOne) == Some(next)
    requires Source !in SandCells(grid0)
    requires Falling(grid0, grid, sand, b, partOne)
    ensures moved == if InAbyss(next, b, partOne) then grid[sand := Air] else grid[sand := Air][next := Sand]
    ensures Falling(grid0, moved, next, b, partOne)
  {
    moved := grid[sand := Air];
    if !InAbyss(next, b, partOne) {
      moved := moved[next := Sand];
    }
    MoveKeepsBelow(grid0, grid, sand, next, b, partOne, moved);
    MoveKeepsSand(grid0, grid, sand, next, b, partOne, moved);
    MoveKeepsRock(grid0, grid, sand, next, b, partOne, moved);
    MoveKeepsAir(grid0, grid, sand, next, b, partOne, moved);
  }

  lemma MoveKeepsBelow(grid0: Grid, grid: Grid, sand: Cell, next: Cell, b: Bounds, partOne: bool, moved: Grid)
    requires !InAbyss(sand, b, partOne)
    requires Step(grid0, sand, b, partOne) == Some(next)
    requires SameBelow(grid, grid0, sand.y)
    requires moved == if InAbyss(next, b, partOne) then grid[sand := Air] else grid[sand := Air][next := Sand]
    ensures SameBelow(moved, grid0, next.y)
    ensures !InAbyss(next, b, partOne) ==> AirAt(grid0, next)
  {
    assert IsAir(grid0, next, b, partOne);
  }

  lemma MoveKeepsSand(grid0: Grid, grid: Grid, sand: Cell, next: Cell, b: Bounds, partOne: bool, moved: Grid)
    requires !InAbyss(sand, b, partOne)
    requires Step(grid0, sand, b, partOne) == Some(next)
    requires sand == Source || AirAt(grid0, sand)
    requires Source !in SandCells(grid0)
    requires SandCells(grid) == SandCells(grid0) + {sand}
    requires moved == if InAbyss(next, b, partOne) then grid[sand := Air] else grid[sand := Air][next := Sand]
    ensures !InAbyss(next, b, partOne) ==> SandCells(moved) == SandCells(grid0) + {next}
    ensures InAbyss(next, b, partOne) ==> SandCells(moved) == SandCells(grid0)
  {
    SandCellsUpdate(grid, sand, Air);
    assert sand !in SandCells(grid0);
    if !InAbyss(next, b, partOne) {
      SandCellsUpdate(grid[sand := Air], next, Sand);
    }
  }

  lemma MoveKeepsRock(grid0: Grid, grid: Grid, sand: Cell, next: Cell, b: Bounds, partOne: bool, moved: Grid)
    requires !InAbyss(sand, b, partOne)
    requires Step(grid0, sand, b, partOne) == Some(next)
    requires SameBelow(grid, grid0, sand.y)
    requires sand == Source || AirAt(grid0, sand)
    requires forall c: Cell :: c != Source ==> (IsRock(grid, c) <==> IsRock(grid0, c))
    requires moved == if InAbyss(next, b, partOne) then grid[sand := Air] else grid[sand := Air][next := Sand]
    ensures forall c: Cell :: c != Source ==> (IsRock(moved, c) <==> IsRock(grid0, c))
  {
    assert IsAir(grid0, next, b, partOne);
  }

  lemma MoveKeepsAir(grid0: Grid, grid: Grid, sand: Cell, next: Cell, b: Bounds, partOne: bool, moved: Grid)
    requires !InAbyss(sand, b, partOne)
    requires Step(grid0, sand, b, partOne) == Some(next)
    requires sand == Source || AirAt(grid0, sand)
    requires forall c: Cell :: 0 < c.y && c != sand && !InAbyss(c, b, partOne) ==> (AirAt(grid, c) <==> AirAt(grid0, c))
    requires moved == if InAbyss(next, b, partOne) then grid[sand := Air] else grid[sand := Air][next := Sand]
    ensures forall c: Cell :: 0 < c.y && c != next && !InAbyss(c, b, partOne) ==> (AirAt(moved, c) <==> AirAt(grid0, c))
  {
  }

  // ---------------------------------------------------------------------
  // The simulation

  /** Every cell a resting grain can occupy: inside the bounds and inside
      the cone below the source. */
  function Region(b: Bounds, partOne: bool): set<Cell> {
    set x: int, y: int | 0 <= y <= b.maxY + 2 && Source.x - y <= x <= Source.x + y
      && !InAbyss(Cell(x, y), b, partOne) :: Cell(x, y)
  }

  lemma Shrinks(region: set<Cell>, sand: set<Cell>, grain: Cell)
    requires grain in region && grain !in sand
    ensures region - (sand + {grain}) < region - sand
  {
    assert grain in region - sand;
  }

  /** The rock (and air) of `filled` with the grains of `sand` at rest on
      it. */
  function Layout(filled: Grid, sand: set<Cell>): Grid {
    map c | c in filled.Keys + sand :: if c in sand then Sand else filled[c]
  }

  lemma LayoutAir(filled: Grid, sand: set<Cell>, d: Cell)
    ensures AirAt(Layout(filled, sand), d) <==> d !in sand && AirAt(filled, d)
  {
  }

  /** A grain dropped on a layout whose source is free, and that does not
      fall into the abyss, rests in `Region` on a cell not yet holding
      sand. */
  lemma GrainLands(filled: Grid, sand: set<Cell>, b: Bounds, partOne: bool)
    requires Inside(b, Source) && Source !in sand
    requires !InAbyss(Settle(Layout(filled, sand), Source, b, partOne), b, partOne)
    ensures var grain := Settle(Layout(filled, sand), Source, b, partOne);
      grain in Region(b, partOne) && grain !in sand
  {
    var grid := Layout(filled, sand);
    var grain := Settle(grid, Source, b, partOne);
    SettleBelow(grid, Source, b, partOne);
    SettleOnAir(grid, Source, b, partOne);
    LayoutAir(filled, sand, grain);
    assert grain == Cell(grain.x, grain.y);
  }

  /** A grain that stays in bounds ends where it started or on air. */
  lemma {:induction false} SettleOnAir(grid: Grid, c: Cell, b: Bounds, partOne: bool)
    requires c.y <= b.maxY + 3
    ensures var r := Settle(grid, c, b, partOne);
      r == c || InAbyss(r, b, partOne) || AirAt(grid, r)
    decreases b.maxY + 3 - c.y
  {
    if !InAbyss(c, b, partOne) {
      match Step(grid, c, b, partOne)
      case None =>
      case Some(next) => SettleOnAir(grid, next, b, partOne);
    }
  }

  /** The grains `play` leaves at rest, poured one at a time onto the rock
      of `filled` on top of `sand`: each grain settles where `Settle` puts
      it on the layout so far, until the source is covered or a grain falls
      into the abyss. */
  ghost function Poured(filled: Grid, sand: set<Cell>, b: Bounds, partOne: bool): set<Cell>
    requires Inside(b, Source) && sand <= Region(b, partOne)
    decreases Region(b, partOne) - sand
  {
    if Source in sand then sand
    else
      var grain := Settle(Layout(filled, sand), Source, b, partOne);
      if InAbyss(grain, b, partOne) then sand
      else
        GrainLands(filled, sand, b, partOne);
        Shrinks(Region(b, partOne), sand, grain);
        Poured(filled, sand + {grain}, b, partOne)
  }

  /** Pouring only adds grains, all inside `Region`, and in part two it
      stops only once the source is covered. */
  lemma {:induction false} PouredGrows(filled: Grid, sand: set<Cell>, b: Bounds, partOne: bool)
    requires Inside(b, Source) && sand <= Region(b, partOne)
    ensures sand <= Poured(filled, sand, b, partOne) <= Region(b, partOne)
    ensures !partOne ==> Source in Poured(filled, sand, b, partOne)
    decreases Region(b, partOne) - sand
  {
    if Source !in sand {
      var grain := Settle(Layout(filled, sand), Source, b, partOne);
      if !partOne {
        FloorCatches(Layout(filled, sand), Source, b);
      }
      if !InAbyss(grain, b, partOne) {
        GrainLands(filled, sand, b, partOne);
        Shrinks(Region(b, partOne), sand, grain);
        PouredGrows(filled, sand + {grain}, b, partOne);
      }
    }
  }

  /** A grid whose non-air cells below the source row are the rock of
      `filled` and its own sand. */
  ghost predicate Layered(filled: Grid, grid: Grid, b: Bounds, partOne: bool) {
    forall d: Cell :: 0 < d.y && !InAbyss(d, b, partOne) ==>
      (AirAt(grid, d) <==> d !in SandCells(grid) && AirAt(filled, d))
  }

  /** On such a grid a grain falls as on the layout of its sand. */
  lemma SettleOnLayout(filled: Grid, grid: Grid, b: Bounds, partOne: bool)
    requires Inside(b, Source) && Layered(filled, grid, b, partOne)
    ensures Settle(grid, Source, b, partOne) == Settle(Layout(filled, SandCells(grid)), Source, b, partOne)
  {
    forall d: Cell | d.y > Source.y && !InAbyss(d, b, partOne)
      ensures AirAt(grid, d) <==> AirAt(Layout(filled, SandCells(grid)), d)
    {
      LayoutAir(filled, SandCells(grid), d);
    }
    SettleAgree(grid, Layout(filled, SandCells(grid)), Source, b, partOne);
  }

  /** Dropping a grain keeps the grid layered. */
  lemma DropKeepsLayered(filled: Grid, grid0: Grid, grid: Grid, sand: Cell, b: Bounds, partOne: bool)
    requires Layered(filled, grid0, b, partOne)
    requires !InAbyss(sand, b, partOne) ==> SandCells(grid) == SandCells(grid0) + {sand}
    requires InAbyss(sand, b, partOne) ==> SandCells(grid) == SandCells(grid0)
    requires forall c: Cell :: 0 < c.y && c != sand && !InAbyss(c, b, partOne) ==> (AirAt(grid, c) <==> AirAt(grid0, c))
    ensures Layered(filled, grid, b, partOne)
  {
    forall d: Cell | 0 < d.y && !InAbyss(d, b, partOne)
      ensures AirAt(grid, d) <==> d !in SandCells(grid) && AirAt(filled, d)
    {
      if d == sand {
        assert d in SandCells(grid);
      }
    }
  }

  /** The outer loop of `play`: grains are dropped until one falls into
      the abyss or the source holds sand. The sand at rest is exactly what
      `Poured` pours onto the rock, and rock is never added. */
  method Pour(filled: Grid, b: Bounds, partOne: bool) returns (grid: Grid)
    requires Inside(b, Source)
    requires SandCells(filled) == {}
    ensures SandCells(grid) == Poured(filled, {}, b, partOne)
    ensures SandCells(grid) <= Region(b, partOne)
    ensures forall c: Cell :: c != Source ==> (IsRock(grid, c) <==> IsRock(filled, c))
    ensures Source in SandCells(grid) || InAbyss(Settle(grid, Source, b, partOne), b, partOne)
  {
    grid := filled;
    var last := Source;
    ghost var region := Region(b, partOne);
    while !InAbyss(last, b, partOne) && !(Source in grid && grid[Source] == Sand)
      invariant SandCells(grid) <= region
      invariant forall c: Cell :: c != Source ==> (IsRock(grid, c) <==> IsRock(filled, c))
      invariant Layered(filled, grid, b, partOne)
      invariant Poured(filled, SandCells(grid), b, partOne) == Poured(filled, {}, b, partOne)
      invariant InAbyss(last, b, partOne) ==> InAbyss(Settle(grid, Source, b, partOne), b, partOne)
      decreases region - SandCells(grid), if InAbyss(last, b, partOne) then 0 else 1
    {
      var next;
      SettleOnLayout(filled, grid, b, partOne);
      next, last := DropGrain(grid, b, partOne);
      SettleBelow(grid, Source, b, partOne);
      DropKeepsLayered(filled, grid, next, last, b, partOne);
      if InAbyss(last, b, partOne) {
        SettleAgree(next, grid, Source, b, partOne);
      } else {
        PouredStep(filled, SandCells(grid), b, partOne);
        Shrinks(region, SandCells(grid), last);
      }
      grid := next;
    }
    if !(Source in grid && grid[Source] == Sand) {
      SettleOnLayout(filled, grid, b, partOne);
    }
  }

  /** One grain that stays in bounds carries the pour on from the sand
      with that grain added. */
  lemma PouredStep(filled: Grid, sand: set<Cell>, b: Bounds, partOne: bool)
    requires Inside(b, Source) && sand <= Region(b, partOne) && Source !in sand
    requires !InAbyss(Settle(Layout(filled, sand), Source, b, partOne), b, partOne)
    ensures var grain := Settle(Layout(filled, sand), Source, b, partOne);
      grain in Region(b, partOne) &&
      Poured(filled, sand, b, partOne) == Poured(filled, sand + {grain}, b, partOne)
  {
    GrainLands(filled, sand, b, partOne);
  }

  /** `play`: the number of grains at rest once a grain falls into the
      abyss or the source is covered; `None` for an empty list of rock
      segments. */
  method Play(lines: seq<Line>, partOne: bool) returns (count: Option<int>, ghost rock: Grid, ghost grid: Grid)
    ensures lines == [] <==> count == None
    ensures forall c :: c in rock <==> OnAnyLine(lines, c)
    ensures forall c :: c in rock ==> rock[c] == Rock
    ensures count.Some? ==>
      var b := ComputeBounds(lines);
      && count.value == |Poured(rock, {}, b, partOne)|
      && count.value == |SandCells(grid)|
      && SandCells(grid) <= Region(b, partOne)
      && (forall c: Cell :: c != Source ==> (IsRock(grid, c) <==> OnAnyLine(lines, c)))
      && (Source in SandCells(grid) || InAbyss(Settle(grid, Source, b, partOne), b, partOne))
      && (!partOne ==> Source in SandCells(grid))
  {
    var filled := FillGrid(map[], lines);
    rock := filled;
    if lines == [] {
      return None, rock, map[];
    }
    var b := ComputeBounds(lines);
    var poured := Pour(filled, b, partOne);
    grid := poured;
    count := Some(|SandCells(poured)|);
    if !partOne {
      FloorCatches(grid, Source, b);
    }
  }
}
